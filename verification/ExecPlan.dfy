/** Expressions of a bound plan, with the projections between aggregate and scan inlined. */
module ExecPlan {
  import opened Bytes
  import opened ExecIr

  datatype Type = Boolean | BigInt | Double | Date | Timestamp | Varchar | Decimal(width: byte,
    scale: byte) | Unhinted(tag: nat)

  /** A constant of the query: every integer width is `Int`, both float widths are `Dbl`. */
  datatype Value = Null | Int(i: int) | Dbl(bits: u64) | Bool(b: bool) | Str(text: Text)
                 | Dec(width: byte, scale: byte, unscaled: i128) | Foreign(tag: nat)

  datatype Bound = Ref(index: nat, ty: Type)
                 | ColumnRef(table: nat, column: nat, ty: Type)
                 | Constant(v: Value, ty: Type)
                 | CastTo(child: Bound, ty: Type)
                 | Arith(op: Op, lhs: Bound, rhs: Bound, ty: Type)
                 | Unsupported(ty: Type)

  /** The scan: its table index, the column of each output position (none for a virtual column), the table's names. */
  datatype Scan = Scan(table: nat, columns: seq<Option<nat>>, names: seq<Text>)

  /** The query engine's conversion of constants; none when it throws. */
  type Caster = (Value, Type) -> Option<Value>

  /** The projections between aggregate and scan, outermost first, with their table indices. */
  datatype Source = Source(scan: Scan, tables: seq<nat>, stack: seq<seq<Bound>>, cast: Caster)

  function HintOf(t: Type): Option<Hint> {
    match t
    case Boolean => Some(BoolHint)
    case BigInt => Some(Int64Hint)
    case Double => Some(DoubleHint)
    case Date => Some(DateHint)
    case Timestamp => Some(TimestampHint)
    case Varchar => Some(Utf8Hint)
    case Decimal(w, s) => Some(DecimalHint(w, s))
    case Unhinted(_) => None
  }

  function LiteralOf(v: Value): Option<Lit> {
    match v
    case Null => Some(NullLit)
    case Int(i) => if FitsSigned(i, 8) then Some(IntLit(i)) else None
    case Dbl(bits) => Some(DoubleLit(bits))
    case Bool(b) => Some(BoolLit(b))
    case Str(t) => Some(TextLit(t))
    case Dec(w, s, u) => Some(DecimalLit(w, s, u))
    case Foreign(_) => None
  }

  /** The table column read at output position `j` of the scan, when it can be named. */
  function ScanColumn(scan: Scan, j: nat): (r: Option<nat>)
    ensures r.Some? ==> r.value < |scan.names| && scan.names[r.value] != []
  {
    if j < |scan.columns| && scan.columns[j].Some? && scan.columns[j].value < |scan.names|
      && scan.names[scan.columns[j].value] != []
    then scan.columns[j] else None
  }

  function ScanExpr(scan: Scan, j: nat): Option<Expr> {
    var c :- ScanColumn(scan, j);
    Some(Column(scan.names[c]))
  }

  function Folded(cast: Caster, v: Value, t: Type): Option<Expr> {
    var w :- cast(v, t);
    var lit :- LiteralOf(w);
    Some(Literal(lit))
  }

  /** The type that constant operands are recast to: the left, else the right, else the result type, if decimal. */
  function DecimalFor(e: Bound): Option<Type>
    requires e.Arith?
  {
    if e.lhs.ty.Decimal? then Some(e.lhs.ty)
    else if e.rhs.ty.Decimal? then Some(e.rhs.ty)
    else if e.ty.Decimal? then Some(e.ty)
    else None
  }

  predicate InProjection(src: Source, level: nat, i: nat) {
    level < |src.stack| && i < |src.stack[level]|
  }

  /** The expression over table columns that the encoder writes for `e`, whose inputs are the outputs of
      projection `level`. */
  function Inline(src: Source, level: nat, e: Bound): Option<Expr>
    requires level <= |src.stack|
    decreases |src.stack| - level, e, 0
  {
    match e
    case ColumnRef(t, c, _) =>
      if t == src.scan.table then ScanExpr(src.scan, c)
      else if InProjection(src, level, c) then Inline(src, level + 1, src.stack[level][c])
      else None
    case Ref(i, _) =>
      if InProjection(src, level, i) then Inline(src, level + 1, src.stack[level][i]) else ScanExpr(src.scan, i)
    case Constant(v, _) => var lit :- LiteralOf(v); Some(Literal(lit))
    case CastTo(child, t) =>
      if child.Constant? then Folded(src.cast, child.v, t)
      else
        var hint :- HintOf(t);
        var x :- Inline(src, level, child);
        Some(Cast(hint, x))
    case Arith(op, l, r, _) =>
      var x :- Operand(src, level, DecimalFor(e), l);
      var y :- Operand(src, level, DecimalFor(e), r);
      Some(Binary(op, x, y))
    case Unsupported(_) => None
  }

  function Operand(src: Source, level: nat, decimal: Option<Type>, e: Bound): Option<Expr>
    requires level <= |src.stack|
    decreases |src.stack| - level, e, 1
  {
    if decimal.Some? && e.Constant? then Folded(src.cast, e.v, decimal.value) else Inline(src, level, e)
  }

  /** The table columns the encoder records for `e`. */
  function Columns(src: Source, level: nat, e: Bound): set<nat>
    requires level <= |src.stack|
    decreases |src.stack| - level, e
  {
    match e
    case ColumnRef(t, c, _) =>
      if t == src.scan.table then ScanColumns(src.scan, c)
      else if InProjection(src, level, c) then Columns(src, level + 1, src.stack[level][c])
      else {}
    case Ref(i, _) =>
      if InProjection(src, level, i) then Columns(src, level + 1, src.stack[level][i]) else ScanColumns(src.scan, i)
    case CastTo(child, _) => Columns(src, level, child)
    case Arith(_, l, r, _) => Columns(src, level, l) + Columns(src, level, r)
    case Constant(_, _) => {}
    case Unsupported(_) => {}
  }

  function ScanColumns(scan: Scan, j: nat): set<nat> {
    if ScanColumn(scan, j).Some? then {ScanColumn(scan, j).value} else {}
  }

  function NamesIn(x: Expr): set<Text> {
    match x
    case Column(name) => {name}
    case Literal(_) => {}
    case Binary(_, l, r) => NamesIn(l) + NamesIn(r)
    case Cast(_, child) => NamesIn(child)
  }

  /** The recorded columns are table columns, and an encoded expression names exactly these. */
  ghost predicate Closed(src: Source, x: Option<Expr>, columns: set<nat>) {
    && (forall i <- columns :: i < |src.scan.names| && src.scan.names[i] != [])
    && (x.Some? ==> NamesIn(x.value) == set i | i in columns && i < |src.scan.names| :: src.scan.names[i])
  }

  lemma {:induction false} InlineIsClosed(src: Source, level: nat, e: Bound)
    requires level <= |src.stack|
    ensures Closed(src, Inline(src, level, e), Columns(src, level, e))
    decreases |src.stack| - level, e
  {
    match e
    case ColumnRef(t, c, _) =>
      if t != src.scan.table && InProjection(src, level, c) {
        InlineIsClosed(src, level + 1, src.stack[level][c]);
      }
    case Ref(i, _) =>
      if InProjection(src, level, i) {
        InlineIsClosed(src, level + 1, src.stack[level][i]);
      }
    case CastTo(child, _) => InlineIsClosed(src, level, child);
    case Arith(_, l, r, _) =>
      InlineIsClosed(src, level, l);
      InlineIsClosed(src, level, r);
    case Constant(_, _) =>
    case Unsupported(_) =>
  }

  // What is inlined at all.

  /** Every constant but one of a foreign type or too wide an integer. */
  predicate Writable(v: Value) {
    !v.Foreign? && (v.Int? ==> -0x8000_0000_0000_0000 <= v.i < 0x8000_0000_0000_0000)
  }

  /** Every reference ends at a named column, every constant is writable once it is converted, and every other cast is
      to a type with a hint. */
  predicate Inlinable(src: Source, level: nat, e: Bound)
    requires level <= |src.stack|
    decreases |src.stack| - level, e, 0
  {
    match e
    case ColumnRef(t, c, _) =>
      if t == src.scan.table then Named(src.scan, c)
      else level < |src.stack| && c < |src.stack[level]| && Inlinable(src, level + 1, src.stack[level][c])
    case Ref(i, _) =>
      if level < |src.stack| && i < |src.stack[level]| then Inlinable(src, level + 1, src.stack[level][i])
      else Named(src.scan, i)
    case Constant(v, _) => Writable(v)
    case CastTo(child, t) =>
      if child.Constant? then src.cast(child.v, t).Some? && Writable(src.cast(child.v, t).value)
      else !t.Unhinted? && Inlinable(src, level, child)
    case Arith(_, l, r, _) =>
      OperandInlinable(src, level, RecastTo(e), l) && OperandInlinable(src, level, RecastTo(e), r)
    case Unsupported(_) => false
  }

  predicate Named(scan: Scan, j: nat) {
    && j < |scan.columns| && scan.columns[j].Some? && scan.columns[j].value < |scan.names|
    && scan.names[scan.columns[j].value] != []
  }

  predicate OperandInlinable(src: Source, level: nat, recast: Option<Type>, e: Bound)
    requires level <= |src.stack|
    decreases |src.stack| - level, e, 1
  {
    if recast.Some? && e.Constant?
    then src.cast(e.v, recast.value).Some? && Writable(src.cast(e.v, recast.value).value)
    else Inlinable(src, level, e)
  }

  /** In arithmetic with a decimal, constants are recast: to the type of a decimal operand, the left one if both are,
      and to that of the result if neither is. */
  function RecastTo(e: Bound): Option<Type>
    requires e.Arith?
  {
    if !e.lhs.ty.Decimal? && !e.rhs.ty.Decimal? then (if e.ty.Decimal? then Some(e.ty) else None)
    else Some(if e.lhs.ty.Decimal? then e.lhs.ty else e.rhs.ty)
  }

  lemma LiteralWritten(v: Value)
    ensures LiteralOf(v).Some? <==> Writable(v)
  {
    FieldWidths();
    assert Pow256(8) == 0x1_0000_0000_0000_0000;
  }

  /** An expression is inlined exactly when it is inlinable. */
  lemma {:induction false} Inlines(src: Source, level: nat, e: Bound)
    requires level <= |src.stack|
    ensures Inline(src, level, e).Some? <==> Inlinable(src, level, e)
    decreases |src.stack| - level, e, 0
  {
    match e
    case ColumnRef(t, c, _) =>
      if t != src.scan.table && InProjection(src, level, c) {
        Inlines(src, level + 1, src.stack[level][c]);
      }
    case Ref(i, _) =>
      if InProjection(src, level, i) {
        Inlines(src, level + 1, src.stack[level][i]);
      }
    case Constant(v, _) => LiteralWritten(v);
    case CastTo(child, t) =>
      if !child.Constant? {
        Inlines(src, level, child);
      } else if src.cast(child.v, t).Some? {
        LiteralWritten(src.cast(child.v, t).value);
      }
    case Arith(_, l, r, _) =>
      OperandInlines(src, level, RecastTo(e), l);
      OperandInlines(src, level, RecastTo(e), r);
    case Unsupported(_) =>
  }

  lemma {:induction false} OperandInlines(src: Source, level: nat, recast: Option<Type>, e: Bound)
    requires level <= |src.stack|
    ensures Operand(src, level, recast, e).Some? <==> OperandInlinable(src, level, recast, e)
    decreases |src.stack| - level, e, 1
  {
    if !(recast.Some? && e.Constant?) {
      Inlines(src, level, e);
    } else if src.cast(e.v, recast.value).Some? {
      LiteralWritten(src.cast(e.v, recast.value).value);
    }
  }

  // Meaning: the query's own values and conversions, and those of the pushed-down plan.

  datatype Engine<!D> = Engine(
    value: Value -> D, lit: Lit -> D, convert: (D, Type) -> D, cast: (D, Hint) -> D, arith: (Op, D, D) -> D)

  /** A literal is the constant it is written for, and a cast to a hint the conversion to its type. */
  ghost predicate Agrees<D(!new)>(en: Engine<D>) {
    && en.lit(NullLit) == en.value(Null)
    && (forall i: i64 :: en.lit(IntLit(i)) == en.value(Int(i)))
    && (forall bits: u64 :: en.lit(DoubleLit(bits)) == en.value(Dbl(bits)))
    && (forall b :: en.lit(BoolLit(b)) == en.value(Bool(b)))
    && (forall t: Text :: en.lit(TextLit(t)) == en.value(Str(t)))
    && (forall w: byte, s: byte, u: i128 :: en.lit(DecimalLit(w, s, u)) == en.value(Dec(w, s, u)))
    && (forall x :: en.cast(x, BoolHint) == en.convert(x, Boolean))
    && (forall x :: en.cast(x, Int64Hint) == en.convert(x, BigInt))
    && (forall x :: en.cast(x, DoubleHint) == en.convert(x, Double))
    && (forall x :: en.cast(x, DateHint) == en.convert(x, Date))
    && (forall x :: en.cast(x, TimestampHint) == en.convert(x, Timestamp))
    && (forall x :: en.cast(x, Utf8Hint) == en.convert(x, Varchar))
    && (forall x, w: byte, s: byte :: en.cast(x, DecimalHint(w, s)) == en.convert(x, Decimal(w, s)))
  }

  /** Converting a constant is what a cast means. */
  ghost predicate Coherent<D(!new)>(en: Engine<D>, cast: Caster) {
    forall v, t :: cast(v, t).Some? ==> en.value(cast(v, t).value) == en.convert(en.value(v), t)
  }

  /** An encoded expression on a table row given by column names. */
  function EvalIr<D>(en: Engine<D>, row: Text -> D, x: Expr): D {
    match x
    case Column(name) => row(name)
    case Literal(l) => en.lit(l)
    case Binary(op, l, r) => en.arith(op, EvalIr(en, row, l), EvalIr(en, row, r))
    case Cast(to, child) => en.cast(EvalIr(en, row, child), to)
  }

  /** References at `level` are to the outputs of that projection, below the last one to the scan. */
  predicate WellBound(src: Source, level: nat, e: Bound)
    requires |src.tables| == |src.stack|
  {
    match e
    case Ref(i, _) => level < |src.stack| ==> i < |src.stack[level]|
    case ColumnRef(t, c, _) =>
      if level < |src.stack| then t == src.tables[level] && c < |src.stack[level]| else t == src.scan.table
    case CastTo(child, _) => WellBound(src, level, child)
    case Arith(_, l, r, _) => WellBound(src, level, l) && WellBound(src, level, r)
    case Constant(_, _) => true
    case Unsupported(_) => true
  }

  ghost predicate WellFormed(src: Source) {
    && |src.tables| == |src.stack|
    && (forall k | 0 <= k < |src.tables| :: src.tables[k] != src.scan.table)
    && (forall k, i | 0 <= k < |src.stack| && 0 <= i < |src.stack[k]| :: WellBound(src, k + 1, src.stack[k][i]))
  }

  /** A bound expression on the rows of its level: each projection evaluated on the row below, the last on the
      scan's row. */
  function Eval<D>(en: Engine<D>, src: Source, row: nat -> D, level: nat, e: Bound): D
    requires level <= |src.stack| && WellFormed(src) && WellBound(src, level, e)
    decreases |src.stack| - level, e
  {
    match e
    case Ref(i, _) => if level == |src.stack| then row(i) else Eval(en, src, row, level + 1, src.stack[level][i])
    case ColumnRef(_, c, _) => if level == |src.stack| then row(c)
      else Eval(en, src, row, level + 1, src.stack[level][c])
    case Constant(v, _) => en.value(v)
    case CastTo(child, t) => en.convert(Eval(en, src, row, level, child), t)
    case Arith(op, l, r, _) => en.arith(op, Eval(en, src, row, level, l), Eval(en, src, row, level, r))
    case Unsupported(_) => en.value(Null)
  }

  /** The two views of one table row. */
  ghost predicate SameRow<D>(scan: Scan, row: nat -> D, named: Text -> D) {
    forall j: nat | j < |scan.columns| && scan.columns[j].Some? && scan.columns[j].value < |scan.names| ::
      named(scan.names[scan.columns[j].value]) == row(j)
  }

  /** Every constant operand that is recast to a decimal keeps its value. */
  ghost predicate Exact<D>(en: Engine<D>, src: Source, level: nat, e: Bound)
    requires level <= |src.stack|
    decreases |src.stack| - level, e, 0
  {
    match e
    case Ref(i, _) => InProjection(src, level, i) ==> Exact(en, src, level + 1, src.stack[level][i])
    case ColumnRef(_, c, _) => InProjection(src, level, c) ==> Exact(en, src, level + 1, src.stack[level][c])
    case CastTo(child, _) => Exact(en, src, level, child)
    case Arith(_, l, r, _) =>
      ExactOperand(en, src, level, RecastTo(e), l) && ExactOperand(en, src, level, RecastTo(e), r)
    case Constant(_, _) => true
    case Unsupported(_) => true
  }

  ghost predicate ExactOperand<D>(en: Engine<D>, src: Source, level: nat, decimal: Option<Type>, e: Bound)
    requires level <= |src.stack|
    decreases |src.stack| - level, e, 1
  {
    if decimal.Some? && e.Constant? then
      src.cast(e.v, decimal.value).Some? ==> en.value(src.cast(e.v, decimal.value).value) == en.value(e.v)
    else Exact(en, src, level, e)
  }

  /** The setting in which an encoded expression and its original are compared. */
  ghost predicate Comparable<D(!new)>(en: Engine<D>, src: Source, row: nat -> D, named: Text -> D) {
    WellFormed(src) && Agrees(en) && Coherent(en, src.cast) && SameRow(src.scan, row, named)
  }

  lemma HintMeaning<D(!new)>(en: Engine<D>, x: D, t: Type)
    requires Agrees(en) && HintOf(t).Some?
    ensures en.cast(x, HintOf(t).value) == en.convert(x, t)
  {
    if t.Decimal? {
      assert en.cast(x, DecimalHint(t.width, t.scale)) == en.convert(x, Decimal(t.width, t.scale));
    }
  }

  /** Inlining preserves meaning: the encoded expression on a table row is the original on the projected row. */
  lemma {:induction false} InlineMeaning<D(!new)>(en: Engine<D>, src: Source, row: nat -> D, named: Text -> D,
      level: nat, e: Bound)
    requires Comparable(en, src, row, named) && level <= |src.stack| && WellBound(src, level, e)
    requires Inline(src, level, e).Some? && Exact(en, src, level, e)
    ensures EvalIr(en, named, Inline(src, level, e).value) == Eval(en, src, row, level, e)
    decreases |src.stack| - level, e, 0
  {
    match e
    case Ref(i, _) =>
      if level < |src.stack| {
        InlineMeaning(en, src, row, named, level + 1, src.stack[level][i]);
      }
    case ColumnRef(_, c, _) =>
      if level < |src.stack| {
        InlineMeaning(en, src, row, named, level + 1, src.stack[level][c]);
      }
    case CastTo(child, t) =>
      if !child.Constant? {
        InlineMeaning(en, src, row, named, level, child);
        HintMeaning(en, Eval(en, src, row, level, child), t);
      }
    case Arith(_, l, r, _) =>
      OperandMeaning(en, src, row, named, level, DecimalFor(e), l);
      OperandMeaning(en, src, row, named, level, DecimalFor(e), r);
    case Constant(_, _) =>
  }

  lemma {:induction false} OperandMeaning<D(!new)>(en: Engine<D>, src: Source, row: nat -> D, named: Text -> D,
      level: nat, decimal: Option<Type>, e: Bound)
    requires Comparable(en, src, row, named) && level <= |src.stack| && WellBound(src, level, e)
    requires Operand(src, level, decimal, e).Some? && ExactOperand(en, src, level, decimal, e)
    ensures EvalIr(en, named, Operand(src, level, decimal, e).value) == Eval(en, src, row, level, e)
    decreases |src.stack| - level, e, 1
  {
    if !(decimal.Some? && e.Constant?) {
      InlineMeaning(en, src, row, named, level, e);
    }
  }

  // When an inexact constant shows.

  /** With `x` as left operand, different right operands give different results. */
  ghost predicate CancelsLeft<D(!new)>(en: Engine<D>, op: Op, x: D) {
    forall a, b {:trigger en.arith(op, x, a), en.arith(op, x, b)} :: en.arith(op, x, a) == en.arith(op, x, b) ==> a == b
  }

  /** With `y` as right operand, different left operands give different results. */
  ghost predicate CancelsRight<D(!new)>(en: Engine<D>, op: Op, y: D) {
    forall a, b {:trigger en.arith(op, a, y), en.arith(op, b, y)} :: en.arith(op, a, y) == en.arith(op, b, y) ==> a == b
  }

  /** On this row the value of `e` tells the value of one recast constant: every operation on the way to it has another
      operand that is exact and cancels. */
  ghost predicate Shows<D(!new)>(en: Engine<D>, src: Source, row: nat -> D, level: nat, e: Bound)
    requires level <= |src.stack| && WellFormed(src) && WellBound(src, level, e)
    decreases |src.stack| - level, e, 0
  {
    match e
    case Ref(i, _) => level < |src.stack| && Shows(en, src, row, level + 1, src.stack[level][i])
    case ColumnRef(_, c, _) => level < |src.stack| && Shows(en, src, row, level + 1, src.stack[level][c])
    case Arith(op, l, r, _) =>
      || (&& ExactOperand(en, src, level, RecastTo(e), l) && CancelsLeft(en, op, Eval(en, src, row, level, l))
          && ShowsOperand(en, src, row, level, RecastTo(e), r))
      || (&& ExactOperand(en, src, level, RecastTo(e), r) && CancelsRight(en, op, Eval(en, src, row, level, r))
          && ShowsOperand(en, src, row, level, RecastTo(e), l))
    case _ => false
  }

  ghost predicate ShowsOperand<D(!new)>(en: Engine<D>, src: Source, row: nat -> D, level: nat, decimal: Option<Type>,
      e: Bound)
    requires level <= |src.stack| && WellFormed(src) && WellBound(src, level, e)
    decreases |src.stack| - level, e, 1
  {
    (decimal.Some? && e.Constant?) || Shows(en, src, row, level, e)
  }

  /** Where a recast constant shows, the meaning is preserved if and only if its conversion is exact. */
  lemma {:induction false} ShownConstantDecides<D(!new)>(en: Engine<D>, src: Source, row: nat -> D, named: Text -> D,
      level: nat, e: Bound)
    requires Comparable(en, src, row, named) && level <= |src.stack| && WellBound(src, level, e)
    requires Inline(src, level, e).Some? && Shows(en, src, row, level, e)
    ensures EvalIr(en, named, Inline(src, level, e).value) == Eval(en, src, row, level, e) <==> Exact(en, src, level, e)
    decreases |src.stack| - level, e, 0
  {
    match e
    case Ref(i, _) => ShownConstantDecides(en, src, row, named, level + 1, src.stack[level][i]);
    case ColumnRef(_, c, _) => ShownConstantDecides(en, src, row, named, level + 1, src.stack[level][c]);
    case Arith(op, l, r, _) =>
      if ExactOperand(en, src, level, DecimalFor(e), l) {
        OperandMeaning(en, src, row, named, level, DecimalFor(e), l);
      }
      if ExactOperand(en, src, level, DecimalFor(e), r) {
        OperandMeaning(en, src, row, named, level, DecimalFor(e), r);
      }
      if ShowsOperand(en, src, row, level, DecimalFor(e), r) {
        ShownOperandDecides(en, src, row, named, level, DecimalFor(e), r);
      }
      if ShowsOperand(en, src, row, level, DecimalFor(e), l) {
        ShownOperandDecides(en, src, row, named, level, DecimalFor(e), l);
      }
  }

  lemma {:induction false} ShownOperandDecides<D(!new)>(en: Engine<D>, src: Source, row: nat -> D, named: Text -> D,
      level: nat, decimal: Option<Type>, e: Bound)
    requires Comparable(en, src, row, named) && level <= |src.stack| && WellBound(src, level, e)
    requires Operand(src, level, decimal, e).Some? && ShowsOperand(en, src, row, level, decimal, e)
    ensures EvalIr(en, named, Operand(src, level, decimal, e).value) == Eval(en, src, row, level, e)
        <==> ExactOperand(en, src, level, decimal, e)
    decreases |src.stack| - level, e, 1
  {
    if !(decimal.Some? && e.Constant?) {
      ShownConstantDecides(en, src, row, named, level, e);
    }
  }

  // A two-digit price times the constant 0.125.

  function RoundingCast(v: Value, t: Type): Option<Value> {
    if v == Dec(4, 3, 125) && t == Decimal(4, 2) then Some(Dec(4, 2, 13)) else None
  }

  function DecimalValue(scale: byte, unscaled: int): real {
    if scale == 3 then unscaled as real / 1000.0 else unscaled as real / 100.0
  }

  function Hundredths(d: real): real {
    (100.0 * d + 0.5).Floor as real / 100.0
  }

  function RealArith(op: Op, a: real, b: real): real {
    match op
    case Add => a + b
    case Sub => a - b
    case Mul => a * b
    case Div => if b == 0.0 then 0.0 else a / b
  }

  function RoundingEngine(): Engine<real> {
    Engine((v: Value) => if v.Dec? then DecimalValue(v.scale, v.unscaled) else 0.0,
           (l: Lit) => if l.DecimalLit? then DecimalValue(l.scale, l.unscaled) else 0.0,
           (d: real, t: Type) => Hundredths(d), (d: real, h: Hint) => Hundredths(d), RealArith)
  }

  function RoundingSource(): Source {
    Source(Scan(0, [Some(0)], [[97]]), [], [], RoundingCast)
  }

  const EIGHTH := Dec(4, 3, 125)

  function PriceTimesEighth(): Bound {
    Arith(Mul, ColumnRef(0, 0, Decimal(4, 2)), Constant(EIGHTH, Decimal(4, 3)), Decimal(8, 5))
  }

  lemma NonzeroCancels(x: real)
    requires x != 0.0
    ensures CancelsLeft(RoundingEngine(), Mul, x)
  {
    forall a, b | RoundingEngine().arith(Mul, x, a) == RoundingEngine().arith(Mul, x, b)
      ensures a == b
    {
      assert a == (x * a) / x && b == (x * b) / x;
    }
  }

  lemma EighthIsRounded()
    ensures Agrees(RoundingEngine()) && Coherent(RoundingEngine(), RoundingCast)
    ensures RoundingEngine().value(EIGHTH) == 0.125 && RoundingEngine().value(Dec(4, 2, 13)) == 0.13
  {
    assert (100.0 * 0.125 + 0.5).Floor == 13;
  }

  /** The constant is written as 0.13, so the product differs on every row with a price. */
  lemma RecastConstantRounds(row: nat -> real, named: Text -> real)
    requires named([97]) == row(0) && row(0) != 0.0
    ensures Comparable(RoundingEngine(), RoundingSource(), row, named)
    ensures WellBound(RoundingSource(), 0, PriceTimesEighth())
    ensures Shows(RoundingEngine(), RoundingSource(), row, 0, PriceTimesEighth())
    ensures Inline(RoundingSource(), 0, PriceTimesEighth()) ==
        Some(Binary(Mul, Column([97]), Literal(DecimalLit(4, 2, 13))))
    ensures EvalIr(RoundingEngine(), named, Inline(RoundingSource(), 0, PriceTimesEighth()).value)
         != Eval(RoundingEngine(), RoundingSource(), row, 0, PriceTimesEighth())
  {
    EighthIsRounded();
    NonzeroCancels(row(0));
    assert !Exact(RoundingEngine(), RoundingSource(), 0, PriceTimesEighth());
    ShownConstantDecides(RoundingEngine(), RoundingSource(), row, named, 0, PriceTimesEighth());
  }
}
