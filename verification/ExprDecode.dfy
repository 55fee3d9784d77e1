/** The Rust decoder of the expression IR, over the bytes its cursor has left. */
module ExprDecode {
  import opened Bytes
  import Utf8
  import IR = ExprIR

  type Text = seq<byte>

  datatype Scalar =
    | Null
    | Boolean(b: bool)
    | Int64(i: int)
    | UInt64(u: nat)
    | Float32(f32: nat)
    | Float64(f64: nat)
    | Utf8Text(text: Text)
    | Date32(days: int)
    | Timestamp(unit: IR.TimeUnit, ticks: int)
    | Decimal128(unscaled: int, precision: byte, scale: int)

  datatype DataType =
    | BooleanType | Int8 | Int16 | Int32 | Int64Type | UInt8 | UInt16 | UInt32 | UInt64Type
    | Float32Type | Float64Type | Utf8Type | Date32Type | TimestampType(typeUnit: IR.TimeUnit)
    | Decimal128Type(typePrecision: byte, typeScale: int)

  datatype Udf = GetField | RegexpLike | Named(name: Text)

  datatype Operator =
    | Arithmetic(op: IR.ArithmeticOp)
    | Compare(cmp: IR.CompareOp)
    | Logical(conj: IR.ConjunctionOp)

  datatype CaseBranch = CaseBranch(when: Expr, result: Expr)

  datatype Expr =
    | Column(name: Text)
    | Literal(value: Scalar)
    | Cast(child: Expr, to: DataType)
    | BinaryExpr(lhs: Expr, op: Operator, rhs: Expr)
    | Not(child: Expr)
    | ScalarFunction(func: Udf, args: seq<Expr>)
    | Case(branches: seq<CaseBranch>, otherwise: Option<Expr>)
    | IsNull(child: Expr)
    | IsNotNull(child: Expr)
    | InList(child: Expr, list: seq<Expr>, negated: bool)
    | Like(child: Expr, pattern: Expr, escape: Option<byte>, caseInsensitive: bool)

  /** What the decoder asks of its surroundings: the session's function registry, when there is one,
      and the regular-expression compiler. */
  datatype Context = Context(registry: Option<set<Text>>, compiles: (Text, Option<Text>) -> bool)

  type Parsed<T> = Option<(T, seq<byte>)>

  const STARTS_WITH: Text := [0x73, 0x74, 0x61, 0x72, 0x74, 0x73, 0x5F, 0x77, 0x69, 0x74, 0x68]
  const ENDS_WITH: Text := [0x65, 0x6E, 0x64, 0x73, 0x5F, 0x77, 0x69, 0x74, 0x68]
  const CONTAINS: Text := [0x63, 0x6F, 0x6E, 0x74, 0x61, 0x69, 0x6E, 0x73]
  const LOWER: Text := [0x6C, 0x6F, 0x77, 0x65, 0x72]
  const UPPER: Text := [0x75, 0x70, 0x70, 0x65, 0x72]
  const BUILTINS: set<Text> := {STARTS_WITH, ENDS_WITH, CONTAINS, LOWER, UPPER}

  predicate Resolvable(name: Text, ctx: Context) {
    name in BUILTINS || (ctx.registry.Some? && name in ctx.registry.value)
  }

  function ReadText(s: seq<byte>): (r: Parsed<Text>)
    ensures r.Some? ==> |r.value.1| < |s|
  {
    var (raw, rest) :- ReadLenPrefixed(s);
    if Utf8.Valid(raw) then Some((raw, rest)) else None
  }

  function ReadTexts(s: seq<byte>, n: nat): (r: Parsed<seq<Text>>)
    ensures r.Some? ==> |r.value.0| == n && |r.value.1| <= |s|
  {
    if n == 0 then Some(([], s))
    else
      var (head, s1) :- ReadText(s);
      var (tail, s2) :- ReadTexts(s1, n - 1);
      Some(([head] + tail, s2))
  }

  function ReadSigned(s: seq<byte>, n: nat): Parsed<int> {
    var (u, rest) :- ReadUnsigned(s, n);
    Some((Signed(u, n), rest))
  }

  function UnitFromTag(b: byte): Option<IR.TimeUnit> {
    match b
    case 0 => Some(IR.Second)
    case 1 => Some(IR.Millisecond)
    case 2 => Some(IR.Microsecond)
    case 3 => Some(IR.Nanosecond)
    case _ => None
  }

  function ArithmeticFromTag(b: byte): Option<IR.ArithmeticOp> {
    match b
    case 1 => Some(IR.Add)
    case 2 => Some(IR.Sub)
    case 3 => Some(IR.Mul)
    case 4 => Some(IR.Div)
    case _ => None
  }

  function CompareFromTag(b: byte): Option<IR.CompareOp> {
    match b
    case 0 => Some(IR.Eq)
    case 1 => Some(IR.NotEq)
    case 2 => Some(IR.Lt)
    case 3 => Some(IR.LtEq)
    case 4 => Some(IR.Gt)
    case 5 => Some(IR.GtEq)
    case 6 => Some(IR.DistinctFrom)
    case 7 => Some(IR.NotDistinctFrom)
    case _ => None
  }

  function ConjunctionFromTag(b: byte): Option<IR.ConjunctionOp> {
    match b
    case 1 => Some(IR.And)
    case 2 => Some(IR.Or)
    case _ => None
  }

  /** A byte reinterpreted as a signed one. */
  function AsI8(b: byte): int {
    if b < 128 then b else b - 256
  }

  function ParseLiteral(s: seq<byte>): Parsed<Scalar> {
    var (tag, s1) :- ReadU8(s);
    match tag
    case 0 => Some((Null, s1))
    case 1 => var (b, s2) :- ReadU8(s1); Some((Boolean(b != 0), s2))
    case 2 => var (v, s2) :- ReadSigned(s1, 8); Some((Int64(v), s2))
    case 3 => var (v, s2) :- ReadUnsigned(s1, 8); Some((UInt64(v), s2))
    case 4 => var (v, s2) :- ReadUnsigned(s1, 4); Some((Float32(v), s2))
    case 5 => var (v, s2) :- ReadUnsigned(s1, 8); Some((Float64(v), s2))
    case 6 => var (t, s2) :- ReadText(s1); Some((Utf8Text(t), s2))
    case 7 => var (v, s2) :- ReadSigned(s1, 4); Some((Date32(v), s2))
    case 8 =>
      var (unitTag, s2) :- ReadU8(s1);
      var (v, s3) :- ReadSigned(s2, 8);
      var unit :- UnitFromTag(unitTag);
      Some((Timestamp(unit, v), s3))
    case 9 => ParseDecimal(s1)
    case _ => None
  }

  function ParseDecimal(s: seq<byte>): Parsed<Scalar> {
    var (precision, s1) :- ReadU8(s);
    var (scale, s2) :- ReadU8(s1);
    var (v, s3) :- ReadSigned(s2, 16);
    Some((Decimal128(v, precision, AsI8(scale)), s3))
  }

  function ParseType(s: seq<byte>): (r: Parsed<DataType>)
    ensures r.Some? ==> |r.value.1| < |s|
  {
    var (tag, s1) :- ReadU8(s);
    match tag
    case 1 => Some((BooleanType, s1))
    case 2 => Some((Int8, s1))
    case 3 => Some((Int16, s1))
    case 4 => Some((Int32, s1))
    case 5 => Some((Int64Type, s1))
    case 6 => Some((UInt8, s1))
    case 7 => Some((UInt16, s1))
    case 8 => Some((UInt32, s1))
    case 9 => Some((UInt64Type, s1))
    case 10 => Some((Float32Type, s1))
    case 11 => Some((Float64Type, s1))
    case 12 => Some((Utf8Type, s1))
    case 13 => Some((Date32Type, s1))
    case 14 =>
      var (unitTag, s2) :- ReadU8(s1);
      var unit :- UnitFromTag(unitTag);
      Some((TimestampType(unit), s2))
    case 15 =>
      var (precision, s2) :- ReadU8(s1);
      var (scale, s3) :- ReadU8(s2);
      Some((Decimal128Type(precision, AsI8(scale)), s3))
    case _ => None
  }

  /** A column path becomes nested field accesses, outermost last. */
  function NestFields(path: seq<Text>): Expr
    requires path != []
  {
    if |path| == 1 then Column(path[0])
    else ScalarFunction(GetField, [NestFields(path[..|path| - 1]), Literal(Utf8Text(path[|path| - 1]))])
  }

  /** An n-ary conjunction is folded to the left. */
  function FoldLeft(op: IR.ConjunctionOp, es: seq<Expr>): Expr
    requires es != []
  {
    if |es| == 1 then es[0]
    else BinaryExpr(FoldLeft(op, es[..|es| - 1]), Logical(op), es[|es| - 1])
  }

  /** The regexp option string reduced to its `i` and `s` flags. */
  function NormalizeFlags(flags: Text): Option<Option<Text>> {
    if exists i | 0 <= i < |flags| :: flags[i] !in {0x69, 0x73, 0x20, 0x09, 0x0A} then None
    else
      var normalized := (if 0x69 in flags then [0x69] else []) + (if 0x73 in flags then [0x73] else []);
      Some(if normalized == [] then None else Some(normalized))
  }

  function BuildRegexp(mode: byte, value: Expr, pattern: Expr, flags: Option<Expr>, ctx: Context): Option<Expr> {
    if !(pattern.Literal? && pattern.value.Utf8Text?) || (mode != IR.PARTIAL_MATCH && mode != IR.FULL_MATCH) then None
    else if flags.Some? && !(flags.value.Literal? && flags.value.value.Utf8Text?) then None
    else
      var options :- if flags.None? then Some(None) else NormalizeFlags(flags.value.value.text);
      var text := if mode == IR.FULL_MATCH
                  then [0x5E, 0x28, 0x3F, 0x3A] + pattern.value.text + [0x29, 0x24] else pattern.value.text;
      if !ctx.compiles(text, options) then None
      else
        Some(ScalarFunction(RegexpLike, [value, Literal(Utf8Text(text))]
                                        + if options.Some? then [Literal(Utf8Text(options.value))] else []))
  }

  function ParsePayload(s: seq<byte>, ctx: Context): Option<Expr>
    decreases |s|, 3
  {
    var (e, rest) :- ParseNode(s, ctx);
    if rest == [] then Some(e) else None
  }

  function ParseSub(s: seq<byte>, ctx: Context): (r: Parsed<Expr>)
    ensures r.Some? ==> |r.value.1| < |s|
    decreases |s|, 0
  {
    var (bytes, rest) :- ReadLenPrefixed(s);
    var e :- ParsePayload(bytes, ctx);
    Some((e, rest))
  }

  function ParseSubs(s: seq<byte>, n: nat, ctx: Context): (r: Parsed<seq<Expr>>)
    ensures r.Some? ==> |r.value.0| == n && |r.value.1| <= |s|
    decreases |s|, 1
  {
    if n == 0 then Some(([], s))
    else
      var (head, s1) :- ParseSub(s, ctx);
      var (tail, s2) :- ParseSubs(s1, n - 1, ctx);
      Some(([head] + tail, s2))
  }

  function ParseBranches(s: seq<byte>, n: nat, ctx: Context): (r: Parsed<seq<CaseBranch>>)
    ensures r.Some? ==> |r.value.0| == n && |r.value.1| <= |s|
    decreases |s|, 1
  {
    if n == 0 then Some(([], s))
    else
      var (when, s1) :- ParseSub(s, ctx);
      var (result, s2) :- ParseSub(s1, ctx);
      var (tail, s3) :- ParseBranches(s2, n - 1, ctx);
      Some(([CaseBranch(when, result)] + tail, s3))
  }

  function ParseColumnRef(s: seq<byte>): Parsed<Expr> {
    var (n, s1) :- ReadUnsigned(s, 4);
    if n == 0 then None
    else
      var (path, s2) :- ReadTexts(s1, n);
      Some((NestFields(path), s2))
  }

  function ParseCast(s: seq<byte>, ctx: Context): Parsed<Expr>
    decreases |s|, 1
  {
    var (to, s1) :- ParseType(s);
    var (child, s2) :- ParseSub(s1, ctx);
    Some((Cast(child, to), s2))
  }

  /** The two operands of an arithmetic or comparison operator. */
  function ParseOperands(s: seq<byte>, op: Operator, ctx: Context): Parsed<Expr>
    decreases |s|, 1
  {
    var (lhs, s1) :- ParseSub(s, ctx);
    var (rhs, s2) :- ParseSub(s1, ctx);
    Some((BinaryExpr(lhs, op, rhs), s2))
  }

  function ParseConjunction(s: seq<byte>, op: IR.ConjunctionOp, ctx: Context): Parsed<Expr>
    decreases |s|, 2
  {
    var (n, s1) :- ReadUnsigned(s, 4);
    if n == 0 then None
    else
      var (children, s2) :- ParseSubs(s1, n, ctx);
      Some((FoldLeft(op, children), s2))
  }

  function ParseFunction(s: seq<byte>, ctx: Context): Parsed<Expr>
    decreases |s|, 2
  {
    var (name, s1) :- ReadText(s);
    var (n, s2) :- ReadUnsigned(s1, 4);
    var (args, s3) :- ParseSubs(s2, n, ctx);
    if Resolvable(name, ctx) then Some((ScalarFunction(Named(name), args), s3)) else None
  }

  function ParseCase(s: seq<byte>, ctx: Context): Parsed<Expr>
    decreases |s|, 2
  {
    var (n, s1) :- ReadUnsigned(s, 4);
    if n == 0 then None
    else
      var (branches, s2) :- ParseBranches(s1, n, ctx);
      var (hasElse, s3) :- ReadU8(s2);
      if hasElse == 0 then Some((Case(branches, None), s3))
      else
        var (e, s4) :- ParseSub(s3, ctx);
        Some((Case(branches, Some(e)), s4))
  }

  function ParseInList(s: seq<byte>, negated: bool, ctx: Context): Parsed<Expr>
    decreases |s|, 2
  {
    var (child, s1) :- ParseSub(s, ctx);
    var (n, s2) :- ReadUnsigned(s1, 4);
    var (items, s3) :- ParseSubs(s2, n, ctx);
    Some((InList(child, items, negated), s3))
  }

  function ParseLike(s: seq<byte>, flags: byte, ctx: Context): Parsed<Expr>
    decreases |s|, 1
  {
    var (child, s1) :- ParseSub(s, ctx);
    var (pattern, s2) :- ParseSub(s1, ctx);
    if (flags / 2) % 2 == 0 then Some((Like(child, pattern, None, flags % 2 == 1), s2))
    else
      var (escape, s3) :- ReadU8(s2);
      Some((Like(child, pattern, Some(escape), flags % 2 == 1), s3))
  }

  function ParseRegexp(s: seq<byte>, mode: byte, hasFlags: bool, ctx: Context): Parsed<Expr>
    decreases |s|, 1
  {
    var (child, s1) :- ParseSub(s, ctx);
    var (pattern, s2) :- ParseSub(s1, ctx);
    if !hasFlags then
      var e :- BuildRegexp(mode, child, pattern, None, ctx);
      Some((e, s2))
    else
      var (flags, s3) :- ParseSub(s2, ctx);
      var e :- BuildRegexp(mode, child, pattern, Some(flags), ctx);
      Some((e, s3))
  }

  function ParseUnary(tag: byte, s: seq<byte>, ctx: Context): Parsed<Expr>
    decreases |s|, 1
  {
    var (c, rest) :- ParseSub(s, ctx);
    Some((if tag == 7 then Not(c) else if tag == 10 then IsNull(c) else IsNotNull(c), rest))
  }

  function ParseNode(s: seq<byte>, ctx: Context): Parsed<Expr>
    decreases |s|, 2
  {
    var (tag, s1) :- ReadU8(s);
    ParseTagged(tag, s1, ctx)
  }

  function ParseTagged(tag: byte, s1: seq<byte>, ctx: Context): Parsed<Expr>
    decreases |s1|, 3
  {
    match tag
    case 1 => ParseColumnRef(s1)
    case 2 => var (v, s2) :- ParseLiteral(s1); Some((Literal(v), s2))
    case 3 => ParseCast(s1, ctx)
    case 4 =>
      var (opTag, s2) :- ReadU8(s1);
      var op :- ArithmeticFromTag(opTag);
      ParseOperands(s2, Arithmetic(op), ctx)
    case 5 =>
      var (opTag, s2) :- ReadU8(s1);
      var op :- CompareFromTag(opTag);
      ParseOperands(s2, Compare(op), ctx)
    case 6 =>
      var (opTag, s2) :- ReadU8(s1);
      var op :- ConjunctionFromTag(opTag);
      ParseConjunction(s2, op, ctx)
    case 7 => ParseUnary(7, s1, ctx)
    case 8 => ParseFunction(s1, ctx)
    case 9 => ParseCase(s1, ctx)
    case 10 => ParseUnary(10, s1, ctx)
    case 11 => ParseUnary(11, s1, ctx)
    case 12 => var (negated, s2) :- ReadU8(s1); ParseInList(s2, negated != 0, ctx)
    case 13 => var (flags, s2) :- ReadU8(s1); ParseLike(s2, flags, ctx)
    case 14 =>
      var (mode, s2) :- ReadU8(s1);
      var (hasFlags, s3) :- ReadU8(s2);
      ParseRegexp(s3, mode, hasFlags != 0, ctx)
    case _ => None
  }

  const FILTER_MAGIC: seq<byte> := [0x4C, 0x46, 0x54, 0x31] // "LFT1"

  function ParseMessage(magic: seq<byte>, s: seq<byte>, ctx: Context): Option<Expr> {
    if magic <= s then ParsePayload(s[|magic|..], ctx) else None
  }
}
