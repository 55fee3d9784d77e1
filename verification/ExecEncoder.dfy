/** The aggregate-pushdown encoder as it runs: a growing buffer and a set of columns. */
module ExecEncoder {
  import opened Bytes
  import opened ExecIr
  import opened ExecPlan

  class Output {
    var bytes: seq<byte>
    var columns: set<nat>

    constructor ()
      ensures bytes == [] && columns == {}
    {
      bytes, columns := [], {};
    }

    method Append(s: seq<byte>)
      modifies this
      ensures bytes == old(bytes) + s && columns == old(columns)
    {
      bytes := bytes + s;
    }

    method AppendText(s: seq<byte>) returns (ok: bool)
      modifies this
      ensures columns == old(columns) && (ok <==> LenPrefixed(s).Some?)
      ensures ok ==> bytes == old(bytes) + LenPrefixed(s).value
    {
      var text := LenPrefixed(s);
      if text.None? {
        return false;
      }
      bytes := bytes + text.value;
      return true;
    }
  }

  /** The bytes of `x` have been appended to `b0` and its columns added to `c0`, unless there is nothing to write. */
  ghost predicate Grew(b0: seq<byte>, c0: set<nat>, ok: bool, b1: seq<byte>, c1: set<nat>, x: Option<Expr>,
      added: set<nat>) {
    && (ok <==> x.Some? && ExprBytes(x.value).Some?)
    && (ok ==> b1 == b0 + ExprBytes(x.value).value && c1 == c0 + added)
  }

  lemma GrewLiteral(b0: seq<byte>, c0: set<nat>, ok: bool, b1: seq<byte>, v: Value)
    requires ok <==> LiteralOf(v).Some? && LitBytes(LiteralOf(v).value).Some?
    requires ok ==> b1 == b0 + ([2] + LitBytes(LiteralOf(v).value).value)
    ensures Grew(b0, c0, ok, b1, c0, if LiteralOf(v).None? then None else Some(Literal(LiteralOf(v).value)), {})
  {
  }

  lemma GrewCast(b0: seq<byte>, c0: set<nat>, h: Hint, ok: bool, b1: seq<byte>, c1: set<nat>, x: Option<Expr>,
      added: set<nat>)
    requires Grew(b0 + ([4] + HintBytes(h)), c0, ok, b1, c1, x, added)
    ensures Grew(b0, c0, ok, b1, c1, if x.None? then None else Some(Cast(h, x.value)), added)
  {
    if ok {
      var body := ExprBytes(x.value).value;
      assert b0 + ([4] + HintBytes(h)) + body == b0 + ([4] + HintBytes(h) + body);
    }
  }

  lemma GrewBinary(b0: seq<byte>, c0: set<nat>, op: Op, ok: bool, b1: seq<byte>, c1: set<nat>, x: Expr, xs: set<nat>,
                   b2: seq<byte>, c2: set<nat>, y: Option<Expr>, ys: set<nat>)
    requires Grew(b0 + [3, OpTag(op)], c0, true, b1, c1, Some(x), xs) && Grew(b1, c1, ok, b2, c2, y, ys)
    ensures Grew(b0, c0, ok, b2, c2, if y.None? then None else Some(Binary(op, x, y.value)), xs + ys)
  {
    if ok {
      var l, r := ExprBytes(x).value, ExprBytes(y.value).value;
      assert b0 + [3, OpTag(op)] + l + r == b0 + ([3, OpTag(op)] + l + r);
    }
  }

  method EncodeLiteral(out: Output, v: Value) returns (ok: bool)
    modifies out
    ensures Grew(old(out.bytes), old(out.columns), ok, out.bytes, out.columns,
                 if LiteralOf(v).None? then None else Some(Literal(LiteralOf(v).value)), {})
  {
    out.Append([2]);
    var lit := LiteralOf(v);
    if lit.None? {
      return false;
    }
    var body := LitBytes(lit.value);
    if body.None? {
      return false;
    }
    out.Append(body.value);
    GrewLiteral(old(out.bytes), old(out.columns), true, out.bytes, v);
    return true;
  }

  method EncodeFolded(out: Output, cast: Caster, v: Value, t: Type) returns (ok: bool)
    modifies out
    ensures Grew(old(out.bytes), old(out.columns), ok, out.bytes, out.columns, Folded(cast, v, t), {})
  {
    var w := cast(v, t);
    if w.None? {
      return false;
    }
    ok := EncodeLiteral(out, w.value);
  }

  method EncodeScanColumn(out: Output, scan: Scan, j: nat) returns (ok: bool)
    modifies out
    ensures Grew(old(out.bytes), old(out.columns), ok, out.bytes, out.columns, ScanExpr(scan, j), ScanColumns(scan, j))
  {
    if j >= |scan.columns| || scan.columns[j].None? {
      return false;
    }
    var c := scan.columns[j].value;
    if c >= |scan.names| || scan.names[c] == [] {
      return false;
    }
    out.columns := out.columns + {c};
    out.Append([1]);
    ok := out.AppendText(scan.names[c]);
  }

  method EncodeExpr(out: Output, src: Source, level: nat, e: Bound) returns (ok: bool)
    requires level <= |src.stack|
    modifies out
    ensures Grew(old(out.bytes), old(out.columns), ok, out.bytes, out.columns, Inline(src, level, e),
        Columns(src, level, e))
    decreases |src.stack| - level, e, 1
  {
    match e
    case ColumnRef(t, c, _) =>
      if t != src.scan.table {
        if !InProjection(src, level, c) {
          return false;
        }
        ok := EncodeExpr(out, src, level + 1, src.stack[level][c]);
      } else {
        ok := EncodeScanColumn(out, src.scan, c);
      }
    case Ref(i, _) =>
      if InProjection(src, level, i) {
        ok := EncodeExpr(out, src, level + 1, src.stack[level][i]);
      } else {
        ok := EncodeScanColumn(out, src.scan, i);
      }
    case Constant(v, _) => ok := EncodeLiteral(out, v);
    case CastTo(child, t) => ok := EncodeCast(out, src, level, child, t);
    case Arith(_, _, _, _) => ok := EncodeArith(out, src, level, e);
    case Unsupported(_) => return false;
  }

  method EncodeCast(out: Output, src: Source, level: nat, child: Bound, t: Type) returns (ok: bool)
    requires level <= |src.stack|
    modifies out
    ensures Grew(old(out.bytes), old(out.columns), ok, out.bytes, out.columns, Inline(src, level, CastTo(child, t)),
        Columns(src, level, child))
    decreases |src.stack| - level, child, 2
  {
    if child.Constant? {
      ok := EncodeFolded(out, src.cast, child.v, t);
      return;
    }
    var hint := HintOf(t);
    if hint.None? {
      return false;
    }
    out.Append([4] + HintBytes(hint.value));
    ok := EncodeExpr(out, src, level, child);
    GrewCast(old(out.bytes), old(out.columns), hint.value, ok, out.bytes, out.columns,
             Inline(src, level, child), Columns(src, level, child));
  }

  method EncodeArith(out: Output, src: Source, level: nat, e: Bound) returns (ok: bool)
    requires level <= |src.stack| && e.Arith?
    modifies out
    ensures Grew(old(out.bytes), old(out.columns), ok, out.bytes, out.columns, Inline(src, level, e),
        Columns(src, level, e))
    decreases |src.stack| - level, e, 0
  {
    out.Append([3, OpTag(e.op)]);
    ok := EncodeOperand(out, src, level, DecimalFor(e), e.lhs);
    if !ok {
      return;
    }
    ghost var b1, c1 := out.bytes, out.columns;
    ok := EncodeOperand(out, src, level, DecimalFor(e), e.rhs);
    ghost var x, y := Operand(src, level, DecimalFor(e), e.lhs), Operand(src, level, DecimalFor(e), e.rhs);
    GrewBinary(old(out.bytes), old(out.columns), e.op, ok, b1, c1, x.value, Columns(src, level, e.lhs),
               out.bytes, out.columns, y, Columns(src, level, e.rhs));
  }

  method EncodeOperand(out: Output, src: Source, level: nat, decimal: Option<Type>, e: Bound) returns (ok: bool)
    requires level <= |src.stack|
    modifies out
    ensures Grew(old(out.bytes), old(out.columns), ok, out.bytes, out.columns, Operand(src, level, decimal, e),
        Columns(src, level, e))
    decreases |src.stack| - level, e, 2
  {
    if decimal.Some? && e.Constant? {
      ok := EncodeFolded(out, src.cast, e.v, decimal.value);
    } else {
      ok := EncodeExpr(out, src, level, e);
    }
  }
}
