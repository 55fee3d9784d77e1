/** Compiling DuckDB predicates and table filters to the expression IR, and what the compiled filter means. */
module FilterPushdown {
  import opened Bytes
  import IR = ExprIR
  import D = ExprDecode
  import T = ExprRoundTrip
  import S = FilterSemantics

  type Text = seq<byte>

  /** Bound expressions, by the classes the filter builders distinguish. */
  datatype Bound =
    | Ref(index: nat)
    | ColumnRef(table: nat, column: nat, depth: nat)
    | StructExtract(child: Bound, field: IR.Value)
    | Constant(value: IR.Value)
    | CastTo(child: Bound, to: IR.LogicalType, tryCast: bool)
    | Compare(cmp: Option<IR.CompareOp>, lhs: Bound, rhs: Bound)
    | Conjoin(conj: Option<IR.ConjunctionOp>, children: seq<Bound>)
    | Negate(child: Bound)
    | NullTest(isNull: bool, child: Bound)
    | InTest(negated: bool, child: Bound, items: seq<Bound>)
    | Between(input: Bound, lower: Bound, upper: Bound, lowerInclusive: bool, upperInclusive: bool)
    | Call(name: Text, args: seq<Bound>)
    | OtherExpr

  /** What a scan reads: a table column, the row id under either of its names, or another virtual column. */
  datatype ColumnId = Column(id: nat) | RowId | LanceRowId | OtherVirtual

  /** The scan a predicate refers to: table index, scanned column ids, and the table's column names, types and computed
      search columns. */
  datatype Scan = Scan(table: nat, columnIds: seq<ColumnId>, names: seq<Text>, types: seq<IR.LogicalType>,
                       computed: set<Text>)

  /** A table filter speaks about one column; a predicate about the columns of a scan. */
  datatype Target = OnColumn(name: Text) | OnScan(scan: Scan, excludeComputed: bool)

  /** Constant folding and the values outside the model: `DefaultCastAs`, the meaning of a cast, values
      with no IR form and expressions no builder accepts. */
  datatype Surroundings = Surroundings(
    castValue: (IR.Value, IR.LogicalType) -> Option<IR.Value>,
    castMeaning: (IR.LogicalType, D.Scalar) -> D.Scalar, otherValue: IR.Value -> D.Scalar,
    otherMeaning: Bound -> D.Scalar)

  const TILDE: Text := [0x7E, 0x7E] // "~~"
  const ILIKE: Text := [0x7E, 0x7E, 0x2A] // "~~*"
  const LIKE_ESCAPE: Text := [0x6C, 0x69, 0x6B, 0x65, 0x5F, 0x65, 0x73, 0x63, 0x61, 0x70, 0x65] // "like_escape"
  const ILIKE_ESCAPE: Text := [0x69] + LIKE_ESCAPE
  const BACKSLASH: byte := 0x5C

  predicate IsLikeName(name: Text) {
    name == TILDE || name == ILIKE || name == LIKE_ESCAPE || name == ILIKE_ESCAPE
  }

  predicate HasEscape(name: Text) {
    name == LIKE_ESCAPE || name == ILIKE_ESCAPE
  }

  predicate CaseInsensitive(name: Text) {
    name == ILIKE || name == ILIKE_ESCAPE
  }

  predicate Supported(t: IR.LogicalType) {
    !t.OtherType?
  }

  function TextOf(v: IR.Value): Option<Text> {
    if v.TextValue? then Some(v.text) else None
  }

  /** The non-null VARCHAR constant an argument folds to. */
  function TextConstant(e: Bound, src: Surroundings): Option<Text> {
    match e
    case Constant(v) =>
      if v.NullValue? then None else var w :- src.castValue(v, IR.Varchar); TextOf(w)
    case CastTo(Constant(v), to, false) =>
      if v.NullValue? then None
      else
        var casted :- src.castValue(v, to);
        var w :- src.castValue(casted, IR.Varchar);
        TextOf(w)
    case _ => None
  }

  function FieldType(fields: seq<(Text, IR.LogicalType)>, name: Text): Option<IR.LogicalType> {
    if fields == [] then None else if fields[0].0 == name then Some(fields[0].1) else FieldType(fields[1..], name)
  }

  /** Column name and struct fields reached by a reference, with the type of the leaf. */
  function BuildPath(scan: Scan, e: Bound): (r: Option<(seq<Text>, IR.LogicalType)>)
    ensures r.Some? ==> r.value.0 != []
  {
    match e
    case Ref(i) => ScanColumn(scan, i)
    case ColumnRef(table, column, depth) =>
      if depth != 0 || table != scan.table then None else ScanColumn(scan, column)
    case StructExtract(child, field) =>
      var (path, ty) :- BuildPath(scan, child);
      if !ty.Struct? || !field.TextValue? then None
      else
        var leaf :- FieldType(ty.fields, field.text);
        Some((path + [field.text], leaf))
    case _ => None
  }

  function ScanColumn(scan: Scan, i: nat): (r: Option<(seq<Text>, IR.LogicalType)>)
    ensures r.Some? ==> r.value.0 != []
  {
    if i >= |scan.columnIds| || !scan.columnIds[i].Column? then None
    else
      var id := scan.columnIds[i].id;
      if id >= |scan.names| || id >= |scan.types| then None else Some(([scan.names[id]], scan.types[id]))
  }

  function BuildColumn(scan: Scan, excludeComputed: bool, e: Bound): Option<IR.Node> {
    var (path, leaf) :- BuildPath(scan, e);
    if (excludeComputed && path[0] in scan.computed) || !Supported(leaf) then None else Some(IR.ColumnRef(path))
  }

  function BuildConstants(es: seq<Bound>): Option<seq<IR.Node>> {
    if es == [] then Some([])
    else if !es[0].Constant? then None
    else
      var tail :- BuildConstants(es[1..]);
      Some([IR.Literal(es[0].value)] + tail)
  }

  function BuildLike(name: Text, input: IR.Node, args: seq<Bound>, src: Surroundings): Option<IR.Node>
    requires |args| >= 1
  {
    if |args| != (if HasEscape(name) then 3 else 2) then None
    else
      var pattern :- TextConstant(args[1], src);
      if !HasEscape(name) then
        Some(IR.Like(CaseInsensitive(name), None, input, IR.Literal(IR.TextValue(pattern))))
      else
        var escape :- TextConstant(args[2], src);
        if escape != [BACKSLASH] then None
        else Some(IR.Like(CaseInsensitive(name), Some(BACKSLASH), input, IR.Literal(IR.TextValue(pattern))))
  }

  function BuildSub(target: Target, e: Bound, src: Surroundings): Option<IR.Node>
    decreases e, 1
  {
    Build(target, e, src)
  }

  function BuildAll(target: Target, es: seq<Bound>, src: Surroundings): Option<seq<IR.Node>>
    decreases es
  {
    if es == [] then Some([])
    else
      var head :- BuildSub(target, es[0], src);
      var tail :- BuildAll(target, es[1..], src);
      Some([head] + tail)
  }

  /** Both filter builders: over one column (table filters) and over a scan (predicates). */
  function Build(target: Target, e: Bound, src: Surroundings): Option<IR.Node>
    decreases e, 0
  {
    match e
    case Ref(_) =>
      if target.OnColumn? then Some(IR.ColumnRef([target.name]))
      else BuildColumn(target.scan, target.excludeComputed, e)
    case ColumnRef(_, _, _) =>
      if target.OnColumn? then None else BuildColumn(target.scan, target.excludeComputed, e)
    case StructExtract(_, _) =>
      if target.OnColumn? then None else BuildColumn(target.scan, target.excludeComputed, e)
    case Constant(v) => Some(IR.Literal(v))
    case CastTo(child, to, tryCast) =>
      if tryCast || !child.Constant? then None
      else var casted :- src.castValue(child.value, to); Some(IR.Literal(casted))
    case Compare(cmp, lhs, rhs) =>
      var op :- cmp;
      var l :- BuildSub(target, lhs, src);
      var r :- BuildSub(target, rhs, src);
      Some(IR.Comparison(op, l, r))
    case Conjoin(conj, children) =>
      var op :- conj;
      var cs :- BuildAll(target, children, src);
      Some(IR.Conjunction(op, cs))
    case Negate(child) =>
      var c :- BuildSub(target, child, src);
      Some(IR.Not(c))
    case NullTest(isNull, child) =>
      var c :- BuildSub(target, child, src);
      Some(if isNull then IR.IsNull(c) else IR.IsNotNull(c))
    case InTest(negated, child, items) =>
      if items == [] then None
      else
        var c :- BuildSub(target, child, src);
        var cs :- BuildConstants(items);
        Some(IR.InList(negated, c, cs))
    case Between(input, lower, upper, lowerInclusive, upperInclusive) =>
      if target.OnColumn? then None
      else
        var i :- BuildSub(target, input, src);
        var lo :- BuildSub(target, lower, src);
        var hi :- BuildSub(target, upper, src);
        Some(IR.Conjunction(IR.And, [IR.Comparison(LowerOp(lowerInclusive), i, lo),
                                     IR.Comparison(UpperOp(upperInclusive), i, hi)]))
    case Call(name, args) =>
      if args == [] then None
      else if name == D.LOWER || name == D.UPPER then
        if |args| != 1 then None
        else
          var input :- BuildSub(target, args[0], src);
          Some(IR.Function(name, [input]))
      else if name == D.STARTS_WITH || name == D.ENDS_WITH || name == D.CONTAINS then
        if |args| != 2 then None
        else
          var input :- BuildSub(target, args[0], src);
          var needle :- TextConstant(args[1], src);
          Some(IR.Function(name, [input, IR.Literal(IR.TextValue(needle))]))
      else if target.OnScan? && IsLikeName(name) then
        var input :- BuildSub(target, args[0], src);
        BuildLike(name, input, args, src)
      else None
    case OtherExpr => None
  }

  function LowerOp(inclusive: bool): IR.CompareOp {
    if inclusive then IR.GtEq else IR.Gt
  }

  function UpperOp(inclusive: bool): IR.CompareOp {
    if inclusive then IR.LtEq else IR.Lt
  }

  // Reference meaning of bound expressions.

  /** The values an expression's references denote on one row. */
  datatype Env = Env(position: nat -> D.Scalar, column: (nat, nat, nat) -> D.Scalar, src: Surroundings, sym: S.Symbols)

  function ValueOf(v: IR.Value, src: Surroundings): D.Scalar {
    if v.TextValue? then D.Utf8Text(v.text)
    else if T.TranslateLiteral(v).Some? then T.TranslateLiteral(v).value
    else src.otherValue(v)
  }

  function EscapeOf(x: D.Scalar): Option<byte> {
    if x.Utf8Text? && |x.text| == 1 then Some(x.text[0]) else None
  }

  function MeaningSub(e: Bound, env: Env): D.Scalar
    decreases e, 1
  {
    Meaning(e, env)
  }

  function MeaningAll(es: seq<Bound>, env: Env): (r: seq<D.Scalar>)
    ensures |r| == |es|
    decreases es
  {
    if es == [] then [] else [MeaningSub(es[0], env)] + MeaningAll(es[1..], env)
  }

  /** `~~` is LIKE and `~~*` its case-insensitive form; the functions with an escape take it as third argument. */
  function CallMeaning(name: Text, xs: seq<D.Scalar>, sym: S.Symbols): D.Scalar {
    if name == TILDE && |xs| == 2 then sym.like(xs[0], xs[1], None, false)
    else if name == ILIKE && |xs| == 2 then sym.like(xs[0], xs[1], None, true)
    else if name == LIKE_ESCAPE && |xs| == 3 then sym.like(xs[0], xs[1], EscapeOf(xs[2]), false)
    else if name == ILIKE_ESCAPE && |xs| == 3 then sym.like(xs[0], xs[1], EscapeOf(xs[2]), true)
    else sym.call(D.Named(name), xs)
  }

  /** x BETWEEN lower AND upper: an inclusive bound may be met, an exclusive one may not. */
  function BetweenValue(x: D.Scalar, lower: D.Scalar, upper: D.Scalar, lowerInclusive: bool, upperInclusive: bool,
                        sym: S.Symbols): D.Scalar
  {
    S.And3(if lowerInclusive then S.Compare3(IR.GtEq, x, lower, sym) else S.Compare3(IR.Gt, x, lower, sym),
           if upperInclusive then S.Compare3(IR.LtEq, x, upper, sym) else S.Compare3(IR.Lt, x, upper, sym))
  }

  function Meaning(e: Bound, env: Env): D.Scalar
    decreases e, 0
  {
    match e
    case Ref(i) => env.position(i)
    case ColumnRef(t, c, d) => env.column(t, c, d)
    case StructExtract(child, field) => env.sym.call(D.GetField, [MeaningSub(child, env), ValueOf(field, env.src)])
    case Constant(v) => ValueOf(v, env.src)
    case CastTo(child, to, _) => env.src.castMeaning(to, MeaningSub(child, env))
    case Compare(Some(op), l, r) => S.Compare3(op, MeaningSub(l, env), MeaningSub(r, env), env.sym)
    case Conjoin(Some(op), children) => S.Nary(op, MeaningAll(children, env))
    case Negate(child) => S.Not3(MeaningSub(child, env))
    case NullTest(isNull, child) => D.Boolean((MeaningSub(child, env) == D.Null) == isNull)
    case InTest(negated, child, items) => S.In3(negated, MeaningSub(child, env), MeaningAll(items, env), env.sym)
    case Between(input, lower, upper, li, ui) =>
      BetweenValue(MeaningSub(input, env), MeaningSub(lower, env), MeaningSub(upper, env), li, ui, env.sym)
    case Call(name, args) => CallMeaning(name, MeaningAll(args, env), env.sym)
    case _ => env.src.otherMeaning(e)
  }

  /** Constant folding agrees with the meaning of casts, and casting to VARCHAR yields text, unchanged if it
      was text. */
  ghost predicate Faithful(src: Surroundings) {
    && (forall v, t :: src.castValue(v, t).Some? ==>
          ValueOf(src.castValue(v, t).value, src) == src.castMeaning(t, ValueOf(v, src)))
    && (forall v :: src.castValue(v, IR.Varchar).Some? ==> src.castValue(v, IR.Varchar).value.TextValue?)
    && (forall t: Text :: src.castValue(IR.TextValue(t), IR.Varchar) == Some(IR.TextValue(t)))
  }

  /** The binder gives text functions VARCHAR arguments. */
  predicate TextArgument(e: Bound) {
    (e.Constant? ==> e.value.TextValue? || e.value.NullValue?) && (e.CastTo? ==> e.to.Varchar?)
  }

  predicate WellTyped(e: Bound)
    decreases e
  {
    match e
    case StructExtract(child, _) => WellTyped(child)
    case CastTo(child, _, _) => WellTyped(child)
    case Compare(_, l, r) => WellTyped(l) && WellTyped(r)
    case Conjoin(_, children) => WellTypedAll(children)
    case Negate(child) => WellTyped(child)
    case NullTest(_, child) => WellTyped(child)
    case InTest(_, child, items) => WellTyped(child)
    case Between(i, l, u, _, _) => WellTyped(i) && WellTyped(l) && WellTyped(u)
    case Call(_, args) => WellTypedAll(args) && forall k | 1 <= k < |args| :: TextArgument(args[k])
    case _ => true
  }

  predicate WellTypedAll(es: seq<Bound>)
    decreases es
  {
    es == [] || (WellTyped(es[0]) && WellTypedAll(es[1..]))
  }

  /** `env` gives references the values that `row` has in the scanned columns. */
  ghost predicate Describes(env: Env, target: Target, row: S.Row) {
    match target
    case OnColumn(name) => forall i: nat :: env.position(i) == row(name)
    case OnScan(scan, _) =>
      forall i: nat | i < |scan.columnIds| && scan.columnIds[i].Column? && scan.columnIds[i].id < |scan.names| ::
        env.position(i) == row(scan.names[scan.columnIds[i].id]) == env.column(scan.table, i, 0)
  }

  lemma TextConstantMeaning(e: Bound, env: Env)
    requires Faithful(env.src) && TextArgument(e) && TextConstant(e, env.src).Some?
    ensures MeaningSub(e, env) == D.Utf8Text(TextConstant(e, env.src).value)
  {
    match e
    case Constant(v) =>
    case CastTo(child, to, _) =>
      var casted := env.src.castValue(child.value, IR.Varchar).value;
      assert env.src.castValue(casted, IR.Varchar) == Some(casted);
      assert MeaningSub(child, env) == Meaning(child, env) == ValueOf(child.value, env.src);
      assert MeaningSub(e, env) == Meaning(e, env);
  }

  /** A reference path decodes to the nested field accesses the reference means. */
  lemma {:induction false} PathMeaning(scan: Scan, excl: bool, e: Bound, env: Env, row: S.Row)
    requires Describes(env, OnScan(scan, excl), row) && BuildPath(scan, e).Some?
    ensures S.Eval(D.NestFields(BuildPath(scan, e).value.0), row, env.sym) == Meaning(e, env)
  {
    var path := BuildPath(scan, e).value.0;
    match e
    case Ref(i) =>
      assert path == [ScanColumn(scan, i).value.0[0]];
    case ColumnRef(_, i, _) =>
      assert path == [ScanColumn(scan, i).value.0[0]];
    case StructExtract(child, field) =>
      PathMeaning(scan, excl, child, env, row);
      var init := BuildPath(scan, child).value.0;
      assert path[..|path| - 1] == init;
      var args := [D.NestFields(init), D.Literal(D.Utf8Text(field.text))];
      assert args[1..][1..] == [];
      assert S.EvalAll(args, row, env.sym) == [S.EvalSub(args[0], row, env.sym), S.EvalSub(args[1], row, env.sym)];
  }

  ghost predicate Compiled(target: Target, e: Bound, ctx: D.Context, env: Env, row: S.Row) {
    && Faithful(env.src) && WellTyped(e) && Describes(env, target, row)
    && Build(target, e, env.src).Some?
    && T.Translate(Build(target, e, env.src).value, ctx).Some?
  }

  ghost function Decoded(target: Target, e: Bound, ctx: D.Context, env: Env, row: S.Row): D.Expr
    requires Compiled(target, e, ctx, env, row)
  {
    T.Translate(Build(target, e, env.src).value, ctx).value
  }

  /** A predicate that compiles and decodes has, on every row, the value the predicate has. */
  lemma {:induction false} BuildMeaning(target: Target, e: Bound, ctx: D.Context, env: Env, row: S.Row)
    requires Compiled(target, e, ctx, env, row)
    ensures S.Eval(Decoded(target, e, ctx, env, row), row, env.sym) == Meaning(e, env)
    decreases e, 1
  {
    match e
    case Ref(_) => ReferenceMeaning(target, e, ctx, env, row);
    case ColumnRef(_, _, _) => ReferenceMeaning(target, e, ctx, env, row);
    case StructExtract(_, _) => ReferenceMeaning(target, e, ctx, env, row);
    case Constant(_) => ConstantMeaning(target, e, ctx, env, row);
    case CastTo(_, _, _) => ConstantMeaning(target, e, ctx, env, row);
    case Compare(_, _, _) => CompareMeaning(target, e, ctx, env, row);
    case Conjoin(_, _) => ConjoinMeaning(target, e, ctx, env, row);
    case Negate(_) => NegateMeaning(target, e, ctx, env, row);
    case NullTest(_, _) => NullTestMeaning(target, e, ctx, env, row);
    case InTest(_, _, _) => InMeaning(target, e, ctx, env, row);
    case Between(_, _, _, _, _) => BetweenMeaning(target, e, ctx, env, row);
    case Call(_, _) => CallIsPreserved(target, e, ctx, env, row);
    case OtherExpr =>
  }

  lemma ConstantMeaning(target: Target, e: Bound, ctx: D.Context, env: Env, row: S.Row)
    requires Compiled(target, e, ctx, env, row) && (e.Constant? || e.CastTo?)
    ensures S.Eval(Decoded(target, e, ctx, env, row), row, env.sym) == Meaning(e, env)
  {
    if e.CastTo? {
      assert MeaningSub(e.child, env) == Meaning(e.child, env) == ValueOf(e.child.value, env.src);
    }
  }

  lemma {:induction false} CompareMeaning(target: Target, e: Bound, ctx: D.Context, env: Env, row: S.Row)
    requires Compiled(target, e, ctx, env, row) && e.Compare?
    ensures S.Eval(Decoded(target, e, ctx, env, row), row, env.sym) == Meaning(e, env)
    decreases e, 0
  {
    SubMeaning(target, e.lhs, ctx, env, row);
    SubMeaning(target, e.rhs, ctx, env, row);
  }

  lemma {:induction false} NegateMeaning(target: Target, e: Bound, ctx: D.Context, env: Env, row: S.Row)
    requires Compiled(target, e, ctx, env, row) && e.Negate?
    ensures S.Eval(Decoded(target, e, ctx, env, row), row, env.sym) == Meaning(e, env)
    decreases e, 0
  {
    SubMeaning(target, e.child, ctx, env, row);
  }

  lemma {:induction false} NullTestMeaning(target: Target, e: Bound, ctx: D.Context, env: Env, row: S.Row)
    requires Compiled(target, e, ctx, env, row) && e.NullTest?
    ensures S.Eval(Decoded(target, e, ctx, env, row), row, env.sym) == Meaning(e, env)
    decreases e, 0
  {
    var c := BuildSub(target, e.child, env.src).value;
    NullTestTranslation(c, ctx, row, env.sym);
    SubMeaning(target, e.child, ctx, env, row);
  }

  lemma {:induction false} InMeaning(target: Target, e: Bound, ctx: D.Context, env: Env, row: S.Row)
    requires Compiled(target, e, ctx, env, row) && e.InTest?
    ensures S.Eval(Decoded(target, e, ctx, env, row), row, env.sym) == Meaning(e, env)
    decreases e, 0
  {
    var c, cs := BuildSub(target, e.child, env.src).value, BuildConstants(e.items).value;
    assert Build(target, e, env.src) == Some(IR.InList(e.negated, c, cs));
    InListTranslation(e.negated, c, cs, ctx, row, env.sym);
    SubMeaning(target, e.child, ctx, env, row);
    ConstantsMeaning(e.items, ctx, env, row);
  }

  lemma {:induction false} SubMeaning(target: Target, e: Bound, ctx: D.Context, env: Env, row: S.Row)
    requires Faithful(env.src) && WellTyped(e) && Describes(env, target, row)
    requires BuildSub(target, e, env.src).Some? && T.TranslateSub(BuildSub(target, e, env.src).value, ctx).Some?
    ensures S.EvalSub(T.TranslateSub(BuildSub(target, e, env.src).value, ctx).value, row, env.sym) == MeaningSub(e, env)
    decreases e, 2
  {
    BuildMeaning(target, e, ctx, env, row);
  }

  lemma ReferenceMeaning(target: Target, e: Bound, ctx: D.Context, env: Env, row: S.Row)
    requires Compiled(target, e, ctx, env, row) && (e.Ref? || e.ColumnRef? || e.StructExtract?)
    ensures S.Eval(Decoded(target, e, ctx, env, row), row, env.sym) == Meaning(e, env)
  {
    match target
    case OnColumn(name) =>
      assert D.NestFields([name]) == D.Column(name);
    case OnScan(scan, excl) =>
      PathMeaning(scan, excl, e, env, row);
  }

  lemma {:induction false} ConjoinMeaning(target: Target, e: Bound, ctx: D.Context, env: Env, row: S.Row)
    requires Compiled(target, e, ctx, env, row) && e.Conjoin?
    ensures S.Eval(Decoded(target, e, ctx, env, row), row, env.sym) == Meaning(e, env)
    decreases e, 0
  {
    var cs := BuildAll(target, e.children, env.src).value;
    AllMeaning(target, e.children, ctx, env, row);
    S.FoldLeftMeaning(e.conj.value, T.TranslateAll(cs, ctx).value, row, env.sym);
  }

  lemma {:induction false} AllMeaning(target: Target, es: seq<Bound>, ctx: D.Context, env: Env, row: S.Row)
    requires Faithful(env.src) && WellTypedAll(es) && Describes(env, target, row)
    requires BuildAll(target, es, env.src).Some?
    requires T.TranslateAll(BuildAll(target, es, env.src).value, ctx).Some?
    ensures S.EvalAll(T.TranslateAll(BuildAll(target, es, env.src).value, ctx).value, row, env.sym) ==
        MeaningAll(es, env)
    decreases es
  {
    if es != [] {
      var cs := BuildAll(target, es, env.src).value;
      assert cs[1..] == BuildAll(target, es[1..], env.src).value;
      SubMeaning(target, es[0], ctx, env, row);
      AllMeaning(target, es[1..], ctx, env, row);
    }
  }

  lemma {:induction false} ConstantsMeaning(es: seq<Bound>, ctx: D.Context, env: Env, row: S.Row)
    requires BuildConstants(es).Some? && T.TranslateAll(BuildConstants(es).value, ctx).Some?
    ensures S.EvalAll(T.TranslateAll(BuildConstants(es).value, ctx).value, row, env.sym) == MeaningAll(es, env)
  {
    if es != [] {
      var cs := BuildConstants(es).value;
      assert cs[1..] == BuildConstants(es[1..]).value;
      assert T.TranslateSub(cs[0], ctx) == T.Translate(cs[0], ctx);
      var head := T.TranslateSub(cs[0], ctx).value;
      assert S.EvalSub(head, row, env.sym) == S.Eval(head, row, env.sym) == ValueOf(es[0].value, env.src);
      assert MeaningSub(es[0], env) == Meaning(es[0], env);
      ConstantsMeaning(es[1..], ctx, env, row);
    }
  }

  lemma NullTestTranslation(c: IR.Node, ctx: D.Context, row: S.Row, sym: S.Symbols)
    ensures T.Translate(IR.IsNull(c), ctx).Some? == T.Translate(IR.IsNotNull(c), ctx).Some? ==
        T.TranslateSub(c, ctx).Some?
    ensures T.TranslateSub(c, ctx).Some? ==>
              var x := S.EvalSub(T.TranslateSub(c, ctx).value, row, sym);
              && S.Eval(T.Translate(IR.IsNull(c), ctx).value, row, sym) == D.Boolean(x == D.Null)
              && S.Eval(T.Translate(IR.IsNotNull(c), ctx).value, row, sym) == D.Boolean(x != D.Null)
  {
    NullTranslation(c, ctx, row, sym);
    NotNullTranslation(c, ctx, row, sym);
  }

  lemma NullTranslation(c: IR.Node, ctx: D.Context, row: S.Row, sym: S.Symbols)
    ensures T.Translate(IR.IsNull(c), ctx).Some? == T.TranslateSub(c, ctx).Some?
    ensures T.TranslateSub(c, ctx).Some? ==>
              S.Eval(T.Translate(IR.IsNull(c), ctx).value, row, sym) ==
                D.Boolean(S.EvalSub(T.TranslateSub(c, ctx).value, row, sym) == D.Null)
  {
  }

  lemma NotNullTranslation(c: IR.Node, ctx: D.Context, row: S.Row, sym: S.Symbols)
    ensures T.Translate(IR.IsNotNull(c), ctx).Some? == T.TranslateSub(c, ctx).Some?
    ensures T.TranslateSub(c, ctx).Some? ==>
              S.Eval(T.Translate(IR.IsNotNull(c), ctx).value, row, sym) ==
                D.Boolean(S.EvalSub(T.TranslateSub(c, ctx).value, row, sym) != D.Null)
  {
  }

  lemma InListTranslation(negated: bool, c: IR.Node, cs: seq<IR.Node>, ctx: D.Context, row: S.Row, sym: S.Symbols)
    requires T.Translate(IR.InList(negated, c, cs), ctx).Some?
    ensures T.TranslateSub(c, ctx).Some? && T.TranslateAll(cs, ctx).Some?
    ensures S.Eval(T.Translate(IR.InList(negated, c, cs), ctx).value, row, sym)
            == S.In3(negated, S.EvalSub(T.TranslateSub(c, ctx).value, row, sym),
              S.EvalAll(T.TranslateAll(cs, ctx).value, row, sym), sym)
  {
  }

  lemma FunctionTranslation(name: Text, args: seq<IR.Node>, ctx: D.Context, row: S.Row, sym: S.Symbols)
    requires T.Translate(IR.Function(name, args), ctx).Some?
    ensures T.TranslateAll(args, ctx).Some?
    ensures S.Eval(T.Translate(IR.Function(name, args), ctx).value, row, sym)
            == sym.call(D.Named(IR.Lower(name)), S.EvalAll(T.TranslateAll(args, ctx).value, row, sym))
  {
  }

  lemma LikeTranslation(n: IR.Node, ctx: D.Context, row: S.Row, sym: S.Symbols)
    requires n.Like? && T.Translate(n, ctx).Some?
    ensures T.TranslateSub(n.child, ctx).Some? && T.TranslateSub(n.pattern, ctx).Some?
    ensures S.Eval(T.Translate(n, ctx).value, row, sym)
            == sym.like(S.EvalSub(T.TranslateSub(n.child, ctx).value, row, sym),
                        S.EvalSub(T.TranslateSub(n.pattern, ctx).value, row, sym), n.escape, n.caseInsensitive)
  {
  }

  lemma PairTranslation(a: IR.Node, b: IR.Node, ctx: D.Context, row: S.Row, sym: S.Symbols)
    requires T.TranslateAll([a, b], ctx).Some?
    ensures T.TranslateSub(a, ctx).Some? && T.TranslateSub(b, ctx).Some?
    ensures S.EvalAll(T.TranslateAll([a, b], ctx).value, row, sym)
            == [S.EvalSub(T.TranslateSub(a, ctx).value, row, sym), S.EvalSub(T.TranslateSub(b, ctx).value, row, sym)]
  {
    assert [a, b][1..] == [b] && [b][1..] == [];
    assert T.TranslateAll([b], ctx).Some?;
    var es := T.TranslateAll([a, b], ctx).value;
    assert es == [T.TranslateSub(a, ctx).value, T.TranslateSub(b, ctx).value];
    assert es[1..] == [es[1]] && es[1..][1..] == [];
  }

  /** The decoded form of two comparisons under AND. */
  lemma RangeTranslation(l: IR.Node, u: IR.Node, ctx: D.Context, row: S.Row, sym: S.Symbols)
    requires l.Comparison? && u.Comparison? && T.Translate(IR.Conjunction(IR.And, [l, u]), ctx).Some?
    ensures T.TranslateSub(l, ctx).Some? && T.TranslateSub(u, ctx).Some?
    ensures S.Eval(T.Translate(IR.Conjunction(IR.And, [l, u]), ctx).value, row, sym)
            == S.And3(S.EvalSub(T.TranslateSub(l, ctx).value, row, sym),
              S.EvalSub(T.TranslateSub(u, ctx).value, row, sym))
  {
    PairTranslation(l, u, ctx, row, sym);
    S.FoldLeftMeaning(IR.And, T.TranslateAll([l, u], ctx).value, row, sym);
    NaryPair(S.EvalSub(T.TranslateSub(l, ctx).value, row, sym), S.EvalSub(T.TranslateSub(u, ctx).value, row, sym));
  }

  lemma NaryPair(x: D.Scalar, y: D.Scalar)
    ensures S.Nary(IR.And, [x, y]) == S.And3(x, y)
  {
    assert [x, y][0] == x && [x, y][1] == y;
  }

  /** BETWEEN is compiled to two comparisons of the same input. */
  lemma {:induction false} BetweenMeaning(target: Target, e: Bound, ctx: D.Context, env: Env, row: S.Row)
    requires Compiled(target, e, ctx, env, row) && e.Between?
    ensures S.Eval(Decoded(target, e, ctx, env, row), row, env.sym) == Meaning(e, env)
    decreases e, 0
  {
    var i, lo, hi := BuildSub(target, e.input, env.src).value, BuildSub(target, e.lower, env.src).value,
      BuildSub(target, e.upper, env.src).value;
    var l, u := IR.Comparison(LowerOp(e.lowerInclusive), i, lo), IR.Comparison(UpperOp(e.upperInclusive), i, hi);
    RangeTranslation(l, u, ctx, row, env.sym);
    ComparisonTranslation(l, ctx, row, env.sym);
    ComparisonTranslation(u, ctx, row, env.sym);
    SubMeaning(target, e.input, ctx, env, row);
    SubMeaning(target, e.lower, ctx, env, row);
    SubMeaning(target, e.upper, ctx, env, row);
  }

  lemma ComparisonTranslation(n: IR.Node, ctx: D.Context, row: S.Row, sym: S.Symbols)
    requires n.Comparison? && T.TranslateSub(n, ctx).Some?
    ensures T.TranslateSub(n.lhs, ctx).Some? && T.TranslateSub(n.rhs, ctx).Some?
    ensures S.EvalSub(T.TranslateSub(n, ctx).value, row, sym)
            == S.Compare3(n.cmp, S.EvalSub(T.TranslateSub(n.lhs, ctx).value, row, sym),
                          S.EvalSub(T.TranslateSub(n.rhs, ctx).value, row, sym), sym)
  {
    assert T.TranslateSub(n, ctx) == T.Translate(n, ctx);
  }

  lemma TextLiteralTranslation(t: Text, ctx: D.Context, row: S.Row, sym: S.Symbols)
    requires T.TranslateSub(IR.Literal(IR.TextValue(t)), ctx).Some?
    ensures S.EvalSub(T.TranslateSub(IR.Literal(IR.TextValue(t)), ctx).value, row, sym) == D.Utf8Text(t)
  {
    var n := IR.Literal(IR.TextValue(t));
    assert T.TranslateSub(n, ctx) == T.Translate(n, ctx) == Some(D.Literal(D.Utf8Text(t)));
    assert S.EvalSub(D.Literal(D.Utf8Text(t)), row, sym) == S.Eval(D.Literal(D.Utf8Text(t)), row, sym);
  }

  lemma BuiltinName(n: Text)
    requires n in D.BUILTINS
    ensures IR.Lower(n) == n && !IsLikeName(n)
  {
  }

  lemma {:induction false} CallIsPreserved(target: Target, e: Bound, ctx: D.Context, env: Env, row: S.Row)
    requires Compiled(target, e, ctx, env, row) && e.Call?
    ensures S.Eval(Decoded(target, e, ctx, env, row), row, env.sym) == Meaning(e, env)
    decreases e, 0
  {
    var input := BuildSub(target, e.args[0], env.src).value;
    BuildCall(target, e, env.src);
    FirstArgument(e);
    if e.name !in D.BUILTINS {
      LikeTranslation(BuildLike(e.name, input, e.args, env.src).value, ctx, row, env.sym);
      SubMeaning(target, e.args[0], ctx, env, row);
      LikeMeaning(e, input, ctx, env, row);
    } else {
      FunctionTranslation(e.name, Arguments(input, e, env.src), ctx, row, env.sym);
      SubMeaning(target, e.args[0], ctx, env, row);
      BuiltinMeaning(e, input, ctx, env, row);
    }
  }

  lemma FirstArgument(e: Bound)
    requires e.Call? && e.args != [] && WellTyped(e)
    ensures WellTyped(e.args[0]) && forall k | 1 <= k < |e.args| :: TextArgument(e.args[k])
  {
  }

  /** The argument nodes of a builtin text function whose input compiles to `input`. */
  function Arguments(input: IR.Node, e: Bound, src: Surroundings): seq<IR.Node>
    requires e.Call? && 1 <= |e.args| <= 2 && (|e.args| == 2 ==> TextConstant(e.args[1], src).Some?)
  {
    if |e.args| == 1 then [input] else [input, IR.Literal(IR.TextValue(TextConstant(e.args[1], src).value))]
  }

  lemma BuildCall(target: Target, e: Bound, src: Surroundings)
    requires e.Call? && Build(target, e, src).Some?
    ensures e.args != [] && BuildSub(target, e.args[0], src).Some?
    ensures e.name in D.BUILTINS || IsLikeName(e.name)
    ensures e.name in D.BUILTINS ==>
              && 1 <= |e.args| <= 2 && (|e.args| == 2 ==> TextConstant(e.args[1], src).Some?)
              && Build(target, e, src) ==
                Some(IR.Function(e.name, Arguments(BuildSub(target, e.args[0], src).value, e, src)))
    ensures e.name !in D.BUILTINS ==>
              Build(target, e, src) == BuildLike(e.name, BuildSub(target, e.args[0], src).value, e.args, src)
  {
  }

  /** The first argument of a call has been compiled to `input` with the same value. */
  ghost predicate InputPreserved(e: Bound, input: IR.Node, ctx: D.Context, env: Env, row: S.Row) {
    && e.Call? && e.args != [] && T.TranslateSub(input, ctx).Some?
    && S.EvalSub(T.TranslateSub(input, ctx).value, row, env.sym) == MeaningSub(e.args[0], env)
  }

  lemma BuiltinMeaning(e: Bound, input: IR.Node, ctx: D.Context, env: Env, row: S.Row)
    requires InputPreserved(e, input, ctx, env, row) && Faithful(env.src)
    requires e.name in D.BUILTINS && 1 <= |e.args| <= 2
    requires |e.args| == 2 ==> TextArgument(e.args[1]) && TextConstant(e.args[1], env.src).Some?
    requires T.Translate(IR.Function(e.name, Arguments(input, e, env.src)), ctx).Some?
    ensures S.Eval(T.Translate(IR.Function(e.name, Arguments(input, e, env.src)), ctx).value, row, env.sym) ==
        Meaning(e, env)
  {
    var args := Arguments(input, e, env.src);
    BuiltinName(e.name);
    FunctionTranslation(e.name, args, ctx, row, env.sym);
    assert S.EvalAll(T.TranslateAll(args, ctx).value, row, env.sym) == MeaningAll(e.args, env) by {
      ArgumentsPreserved(e, input, ctx, env, row);
    }
  }

  lemma ArgumentsPreserved(e: Bound, input: IR.Node, ctx: D.Context, env: Env, row: S.Row)
    requires InputPreserved(e, input, ctx, env, row) && Faithful(env.src) && 1 <= |e.args| <= 2
    requires |e.args| == 2 ==> TextArgument(e.args[1]) && TextConstant(e.args[1], env.src).Some?
    requires T.TranslateAll(Arguments(input, e, env.src), ctx).Some?
    ensures S.EvalAll(T.TranslateAll(Arguments(input, e, env.src), ctx).value, row, env.sym) == MeaningAll(e.args, env)
  {
    if |e.args| == 1 {
      SingleTranslation(input, ctx, row, env.sym);
      assert e.args[1..] == [];
    } else {
      var text := TextConstant(e.args[1], env.src).value;
      TextConstantMeaning(e.args[1], env);
      ArgumentsMeaning(e, env);
      PairTranslation(input, IR.Literal(IR.TextValue(text)), ctx, row, env.sym);
      TextLiteralTranslation(text, ctx, row, env.sym);
    }
  }

  lemma SingleTranslation(a: IR.Node, ctx: D.Context, row: S.Row, sym: S.Symbols)
    requires T.TranslateAll([a], ctx).Some?
    ensures T.TranslateSub(a, ctx).Some?
    ensures S.EvalAll(T.TranslateAll([a], ctx).value, row, sym) == [S.EvalSub(T.TranslateSub(a, ctx).value, row, sym)]
  {
    assert [a][1..] == [];
    var es := T.TranslateAll([a], ctx).value;
    assert es == [T.TranslateSub(a, ctx).value];
    assert es[1..] == [];
  }

  lemma LikeMeaning(e: Bound, input: IR.Node, ctx: D.Context, env: Env, row: S.Row)
    requires InputPreserved(e, input, ctx, env, row) && Faithful(env.src)
    requires IsLikeName(e.name) && forall k | 1 <= k < |e.args| :: TextArgument(e.args[k])
    requires BuildLike(e.name, input, e.args, env.src).Some?
    requires T.Translate(BuildLike(e.name, input, e.args, env.src).value, ctx).Some?
    ensures S.Eval(T.Translate(BuildLike(e.name, input, e.args, env.src).value, ctx).value, row, env.sym) ==
        Meaning(e, env)
  {
    var text := TextConstant(e.args[1], env.src).value;
    var n := BuildLike(e.name, input, e.args, env.src).value;
    LikeTranslation(n, ctx, row, env.sym);
    TextLiteralTranslation(text, ctx, row, env.sym);
    LikeArguments(e, input, env);
  }

  lemma LikeArguments(e: Bound, input: IR.Node, env: Env)
    requires e.Call? && e.args != [] && Faithful(env.src)
    requires IsLikeName(e.name) && forall k | 1 <= k < |e.args| :: TextArgument(e.args[k])
    requires BuildLike(e.name, input, e.args, env.src).Some?
    ensures Meaning(e, env) ==
        env.sym.like(MeaningSub(e.args[0], env), D.Utf8Text(TextConstant(e.args[1], env.src).value),
                                            BuildLike(e.name, input, e.args, env.src).value.escape,
                                              CaseInsensitive(e.name))
  {
    TextConstantMeaning(e.args[1], env);
    ArgumentsMeaning(e, env);
    if HasEscape(e.name) {
      TextConstantMeaning(e.args[2], env);
    }
    assert Meaning(e, env) == CallMeaning(e.name, MeaningAll(e.args, env), env.sym);
  }

  lemma ArgumentsMeaning(e: Bound, env: Env)
    requires e.Call? && |e.args| >= 2
    ensures MeaningAll(e.args, env)[0] == MeaningSub(e.args[0], env)
        && MeaningAll(e.args, env)[1] == MeaningSub(e.args[1], env)
    ensures |e.args| == 2 ==> MeaningAll(e.args, env) == [MeaningSub(e.args[0], env), MeaningSub(e.args[1], env)]
    ensures |e.args| == 3 ==> MeaningAll(e.args, env)[2] == MeaningSub(e.args[2], env)
  {
    var t1 := e.args[1..];
    assert t1[0] == e.args[1];
    assert |e.args| == 3 ==> t1[1..][0] == e.args[2];
    assert MeaningAll(e.args, env) == [MeaningSub(e.args[0], env)] + MeaningAll(t1, env);
    assert MeaningAll(t1, env) == [MeaningSub(t1[0], env)] + MeaningAll(t1[1..], env);
  }
}
