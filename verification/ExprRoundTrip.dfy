/** Decoding what the C++ side encoded: exactly the bytes of each tree, at every nesting level. */
module ExprRoundTrip {
  import opened Bytes
  import Utf8
  import DecimalText
  import IR = ExprIR
  import D = ExprDecode

  function Checked(t: IR.Text): Option<IR.Text> {
    if Utf8.Valid(t) then Some(t) else None
  }

  /** The unit a timestamp of each type counts. */
  function UnitMeant(kind: IR.TimestampKind): IR.TimeUnit {
    if kind.InSeconds? then IR.Second
    else if kind.InMilliseconds? then IR.Millisecond
    else if kind.InNanoseconds? then IR.Nanosecond
    else IR.Microsecond
  }

  function TranslateLiteral(v: IR.Value): Option<D.Scalar> {
    match v
    case NullValue => Some(D.Null)
    case BoolValue(b) => Some(D.Boolean(b))
    case SignedValue(i) => Some(D.Int64(i))
    case UnsignedValue(u) => Some(D.UInt64(u))
    case FloatValue(bits) => Some(D.Float32(bits))
    case DoubleValue(bits) => Some(D.Float64(bits))
    case TextValue(t) => var text :- Checked(t); Some(D.Utf8Text(text))
    case DateValue(d, _) => Some(D.Date32(d))
    case TimestampValue(kind, t, _) => Some(D.Timestamp(UnitMeant(kind), t))
    case DecimalValue(width, scale, printed) =>
      if DecimalText.WellFormed(printed, scale)
      then Some(D.Decimal128(DecimalText.UnscaledValue(printed, scale), width, scale)) else None
    case OtherValue => None
  }

  function TranslateType(t: IR.LogicalType): Option<D.DataType> {
    match t
    case Boolean => Some(D.BooleanType)
    case TinyInt => Some(D.Int8)
    case SmallInt => Some(D.Int16)
    case Integer => Some(D.Int32)
    case BigInt => Some(D.Int64Type)
    case UTinyInt => Some(D.UInt8)
    case USmallInt => Some(D.UInt16)
    case UInteger => Some(D.UInt32)
    case UBigInt => Some(D.UInt64Type)
    case Float => Some(D.Float32Type)
    case Double => Some(D.Float64Type)
    case Varchar => Some(D.Utf8Type)
    case Date => Some(D.Date32Type)
    case Timestamp(kind) => Some(D.TimestampType(UnitMeant(kind)))
    case Decimal(width, scale) => Some(D.Decimal128Type(width, scale))
    case Struct(_) => None
    case OtherType => None
  }

  function TranslateTexts(ts: seq<IR.Text>): (r: Option<seq<IR.Text>>)
    ensures r.Some? ==> r.value == ts
    ensures r.Some? <==> forall i | 0 <= i < |ts| :: Utf8.Valid(ts[i])
  {
    if ts == [] then Some([])
    else
      var head :- Checked(ts[0]);
      var tail :- TranslateTexts(ts[1..]);
      Some([head] + tail)
  }

  /** A child expression, decoded from its own length-prefixed bytes. */
  function TranslateSub(n: IR.Node, ctx: D.Context): Option<D.Expr>
    decreases n, 1
  {
    Translate(n, ctx)
  }

  function TranslateAll(ns: seq<IR.Node>, ctx: D.Context): (r: Option<seq<D.Expr>>)
    ensures r.Some? ==> |r.value| == |ns|
    decreases ns
  {
    if ns == [] then Some([])
    else
      var head :- TranslateSub(ns[0], ctx);
      var tail :- TranslateAll(ns[1..], ctx);
      Some([head] + tail)
  }

  function TranslateBranch(b: IR.Branch, ctx: D.Context): Option<D.CaseBranch>
    decreases b
  {
    var when :- TranslateSub(b.when, ctx);
    var result :- TranslateSub(b.result, ctx);
    Some(D.CaseBranch(when, result))
  }

  function TranslateBranches(bs: seq<IR.Branch>, ctx: D.Context): (r: Option<seq<D.CaseBranch>>)
    ensures r.Some? ==> |r.value| == |bs|
    decreases bs
  {
    if bs == [] then Some([])
    else
      var head :- TranslateBranch(bs[0], ctx);
      var tail :- TranslateBranches(bs[1..], ctx);
      Some([head] + tail)
  }

  /** The tree the decoder rebuilds: conjunctions folded left, column paths as nested field access,
      function names lower-cased; `None` when a text is not UTF-8, a function is unknown, or a regexp
      pattern or option is not an acceptable literal. */
  function Translate(n: IR.Node, ctx: D.Context): Option<D.Expr>
    decreases n, 0
  {
    match n
    case ColumnRef(path) =>
      if path == [] then None else var texts :- TranslateTexts(path); Some(D.NestFields(texts))
    case Literal(v) => var s :- TranslateLiteral(v); Some(D.Literal(s))
    case Cast(to, child) =>
      var ty :- TranslateType(to);
      var c :- TranslateSub(child, ctx);
      Some(D.Cast(c, ty))
    case Binary(op, lhs, rhs) =>
      var l :- TranslateSub(lhs, ctx);
      var r :- TranslateSub(rhs, ctx);
      Some(D.BinaryExpr(l, D.Arithmetic(op), r))
    case Comparison(op, lhs, rhs) =>
      var l :- TranslateSub(lhs, ctx);
      var r :- TranslateSub(rhs, ctx);
      Some(D.BinaryExpr(l, D.Compare(op), r))
    case Conjunction(op, children) =>
      if children == [] then None else var cs :- TranslateAll(children, ctx); Some(D.FoldLeft(op, cs))
    case Not(child) => var c :- TranslateSub(child, ctx); Some(D.Not(c))
    case Function(name, args) =>
      var text :- Checked(IR.Lower(name));
      var cs :- TranslateAll(args, ctx);
      if D.Resolvable(text, ctx) then Some(D.ScalarFunction(D.Named(text), cs)) else None
    case Case(branches, otherwise) =>
      var bs :- TranslateBranches(branches, ctx);
      if otherwise.None? then Some(D.Case(bs, None))
      else var e :- TranslateSub(otherwise.value, ctx); Some(D.Case(bs, Some(e)))
    case IsNull(child) => var c :- TranslateSub(child, ctx); Some(D.IsNull(c))
    case IsNotNull(child) => var c :- TranslateSub(child, ctx); Some(D.IsNotNull(c))
    case InList(negated, child, items) =>
      var c :- TranslateSub(child, ctx);
      var cs :- TranslateAll(items, ctx);
      Some(D.InList(c, cs, negated))
    case Like(ci, escape, child, pattern) =>
      var c :- TranslateSub(child, ctx);
      var p :- TranslateSub(pattern, ctx);
      Some(D.Like(c, p, escape, ci))
    case Regexp(mode, child, pattern, flags) =>
      var c :- TranslateSub(child, ctx);
      var p :- TranslateSub(pattern, ctx);
      if flags.None? then D.BuildRegexp(mode, c, p, None, ctx)
      else var f :- TranslateSub(flags.value, ctx); D.BuildRegexp(mode, c, p, Some(f), ctx)
  }

  function With<T>(o: Option<T>, rest: seq<byte>): D.Parsed<T> {
    if o.None? then None else Some((o.value, rest))
  }

  lemma ReadTag(tag: byte, rest: seq<byte>)
    ensures ReadU8([tag] + rest) == Some((tag, rest))
  {
    assert ([tag] + rest)[1..] == rest;
  }

  lemma Concatenate3(a: seq<byte>, b: seq<byte>, c: seq<byte>, rest: seq<byte>)
    ensures a + b + c + rest == a + (b + (c + rest))
  {
  }

  lemma Concatenate4(a: seq<byte>, b: seq<byte>, c: seq<byte>, d: seq<byte>, rest: seq<byte>)
    ensures a + b + c + d + rest == a + (b + (c + (d + rest)))
  {
  }

  lemma ReadTwoTags(t1: byte, t2: byte, rest: seq<byte>)
    ensures ReadU8([t1, t2] + rest) == Some((t1, [t2] + rest))
    ensures ReadU8([t2] + rest) == Some((t2, rest))
  {
    assert [t1, t2] + rest == [t1] + ([t2] + rest);
    ReadTag(t1, [t2] + rest);
    ReadTag(t2, rest);
  }

  lemma ReadSignedAfterWrite(v: int, n: nat, rest: seq<byte>)
    requires FitsSigned(v, n)
    ensures D.ReadSigned(LittleEndian(Unsigned(v, n), n) + rest, n) == Some((v, rest))
  {
    ReadUnsignedAfterWrite(Unsigned(v, n), n, rest);
  }

  lemma ReadCount(n: nat, rest: seq<byte>)
    requires IR.EncodeCount(n).Some?
    ensures ReadUnsigned(IR.EncodeCount(n).value + rest, 4) == Some((n, rest))
  {
    FieldWidths();
    ReadUnsignedAfterWrite(n, 4, rest);
  }

  lemma ReadTextAfterWrite(t: IR.Text, rest: seq<byte>)
    requires LenPrefixed(t).Some?
    ensures D.ReadText(LenPrefixed(t).value + rest) == With(Checked(t), rest)
  {
    ReadLenPrefixedAfterWrite(t, rest);
  }

  lemma {:induction false} ReadTextsAfterWrite(ts: seq<IR.Text>, rest: seq<byte>)
    requires IR.EncodeTexts(ts).Some?
    ensures D.ReadTexts(IR.EncodeTexts(ts).value + rest, |ts|) == With(TranslateTexts(ts), rest)
  {
    if ts == [] {
      assert IR.EncodeTexts(ts).value + rest == rest;
    } else {
      var head, tail := LenPrefixed(ts[0]).value, IR.EncodeTexts(ts[1..]).value;
      assert IR.EncodeTexts(ts).value + rest == head + (tail + rest);
      ReadTextAfterWrite(ts[0], tail + rest);
      ReadTextsAfterWrite(ts[1..], rest);
    }
  }

  lemma WideLiteralRoundTrip(v: IR.Value, rest: seq<byte>)
    requires v.UnsignedValue? || v.FloatValue? || v.DoubleValue?
    ensures D.ParseLiteral(IR.EncodeLiteral(v).value + rest) == With(TranslateLiteral(v), rest)
  {
    var tag: byte := if v.UnsignedValue? then 3 else if v.FloatValue? then 4 else 5;
    var width := if v.FloatValue? then 4 else 8;
    var bits: nat := if v.UnsignedValue? then v.u else if v.FloatValue? then v.f32 else v.f64;
    var body := LittleEndian(bits, width) + rest;
    assert IR.EncodeLiteral(v).value + rest == [tag] + body;
    ReadTag(tag, body);
    ReadUnsignedAfterWrite(bits, width, rest);
  }

  lemma SignedLiteralRoundTrip(v: IR.Value, rest: seq<byte>)
    requires v.SignedValue? || (v.DateValue? && v.finiteDate)
    ensures D.ParseLiteral(IR.EncodeLiteral(v).value + rest) == With(TranslateLiteral(v), rest)
  {
    var tag: byte := if v.SignedValue? then 2 else 7;
    var width := if v.SignedValue? then 8 else 4;
    var i: int := if v.SignedValue? then v.i else v.days;
    var body := LittleEndian(Unsigned(i, width), width) + rest;
    assert IR.EncodeLiteral(v).value + rest == [tag] + body;
    ReadTag(tag, body);
    ReadSignedAfterWrite(i, width, rest);
  }

  lemma TimestampRoundTrip(v: IR.Value, rest: seq<byte>)
    requires v.TimestampValue? && v.finiteTime
    ensures D.ParseLiteral(IR.EncodeLiteral(v).value + rest) == With(TranslateLiteral(v), rest)
  {
    var unit := IR.UnitTag(IR.UnitOf(v.kind));
    var body := LittleEndian(Unsigned(v.ticks, 8), 8) + rest;
    assert IR.EncodeLiteral(v).value + rest == [8] + ([unit] + body);
    ReadTag(8, [unit] + body);
    ReadTag(unit, body);
    ReadSignedAfterWrite(v.ticks, 8, rest);
  }

  /** Every literal the encoder accepts is read back with its value, decimals as 128-bit two's complement. */
  lemma LiteralRoundTrip(v: IR.Value, rest: seq<byte>)
    requires IR.EncodeLiteral(v).Some?
    ensures D.ParseLiteral(IR.EncodeLiteral(v).value + rest) == With(TranslateLiteral(v), rest)
  {
    var all := IR.EncodeLiteral(v).value + rest;
    match v
    case NullValue =>
      ReadTag(0, rest);
    case BoolValue(b) =>
      var flag: byte := if b then 1 else 0;
      assert all == [1] + ([flag] + rest);
      ReadTag(1, [flag] + rest);
      ReadTag(flag, rest);
    case TextValue(t) =>
      var body := LenPrefixed(t).value + rest;
      assert all == [6] + body;
      ReadTag(6, body);
      ReadTextAfterWrite(t, rest);
    case TimestampValue(_, _, _) =>
      TimestampRoundTrip(v, rest);
    case DecimalValue(width, scale, printed) =>
      DecimalBytesRoundTrip(width, scale, DecimalText.UnscaledValue(printed, scale), rest);
    case UnsignedValue(_) =>
      WideLiteralRoundTrip(v, rest);
    case FloatValue(_) =>
      WideLiteralRoundTrip(v, rest);
    case DoubleValue(_) =>
      WideLiteralRoundTrip(v, rest);
    case SignedValue(_) =>
      SignedLiteralRoundTrip(v, rest);
    case DateValue(_, _) =>
      SignedLiteralRoundTrip(v, rest);
    case OtherValue =>
  }

  /** A 128-bit two's-complement decimal is read back as written. */
  lemma DecimalBytesRoundTrip(width: byte, scale: byte, unscaled: int, rest: seq<byte>)
    requires FitsSigned(unscaled, 16)
    ensures D.ParseLiteral([9, width, scale] + LittleEndian(Unsigned(unscaled, 16), 16) + rest)
            == Some((D.Decimal128(unscaled, width, D.AsI8(scale)), rest))
  {
    var number := LittleEndian(Unsigned(unscaled, 16), 16);
    assert [9, width, scale] + number + rest == [9] + ([width, scale] + (number + rest));
    ReadTag(9, [width, scale] + (number + rest));
    ReadTwoTags(width, scale, number + rest);
    ReadSignedAfterWrite(unscaled, 16, rest);
  }

  lemma TypeRoundTrip(t: IR.LogicalType, rest: seq<byte>)
    requires IR.EncodeType(t).Some?
    ensures D.ParseType(IR.EncodeType(t).value + rest) == With(TranslateType(t), rest)
  {
    var all := IR.EncodeType(t).value + rest;
    match t
    case Timestamp(kind) =>
      var unit := IR.UnitTag(IR.UnitOf(kind));
      assert all == [14] + ([unit] + rest);
      ReadTag(14, [unit] + rest);
      ReadTag(unit, rest);
    case Decimal(width, scale) =>
      assert all == [15] + ([width] + ([scale] + rest));
      ReadTag(15, [width] + ([scale] + rest));
      ReadTag(width, [scale] + rest);
      ReadTag(scale, rest);
    case Struct(_) =>
    case OtherType =>
    case _ =>
      ReadTag(all[0], rest);
  }

  lemma {:induction false} SubRoundTrip(n: IR.Node, ctx: D.Context, rest: seq<byte>)
    requires IR.EncodeSub(n).Some?
    ensures D.ParseSub(IR.EncodeSub(n).value + rest, ctx) == With(TranslateSub(n, ctx), rest)
    decreases n, 3
  {
    var bytes := IR.Encode(n).value;
    ReadLenPrefixedAfterWrite(bytes, rest);
    NodeRoundTrip(n, ctx, []);
    assert bytes + [] == bytes;
  }

  lemma ParseSubsStep(s: seq<byte>, n: nat, ctx: D.Context, head: Option<D.Expr>, rest: seq<byte>)
    requires D.ParseSub(s, ctx) == With(head, rest)
    ensures D.ParseSubs(s, n + 1, ctx)
            == if head.None? || D.ParseSubs(rest, n, ctx).None? then None
               else var (tail, s2) := D.ParseSubs(rest, n, ctx).value; Some(([head.value] + tail, s2))
  {
  }

  lemma {:induction false} SubsRoundTrip(ns: seq<IR.Node>, ctx: D.Context, rest: seq<byte>)
    requires IR.EncodeSubs(ns).Some?
    ensures D.ParseSubs(IR.EncodeSubs(ns).value + rest, |ns|, ctx) == With(TranslateAll(ns, ctx), rest)
    decreases ns
  {
    if ns == [] {
      assert IR.EncodeSubs(ns).value + rest == rest;
    } else {
      var head, tail := IR.EncodeSub(ns[0]).value, IR.EncodeSubs(ns[1..]).value;
      assert head + tail + rest == head + (tail + rest);
      SubRoundTrip(ns[0], ctx, tail + rest);
      SubsRoundTrip(ns[1..], ctx, rest);
      ParseSubsStep(head + (tail + rest), |ns| - 1, ctx, TranslateSub(ns[0], ctx), tail + rest);
    }
  }

  lemma {:induction false} BranchesRoundTrip(bs: seq<IR.Branch>, ctx: D.Context, rest: seq<byte>)
    requires IR.EncodeBranches(bs).Some?
    ensures D.ParseBranches(IR.EncodeBranches(bs).value + rest, |bs|, ctx) == With(TranslateBranches(bs, ctx), rest)
    decreases bs
  {
    if bs == [] {
      assert IR.EncodeBranches(bs).value + rest == rest;
    } else {
      var when, result := IR.EncodeSub(bs[0].when).value, IR.EncodeSub(bs[0].result).value;
      var tail := IR.EncodeBranches(bs[1..]).value;
      Concatenate3(when, result, tail, rest);
      BranchRoundTrip(bs[0], ctx, tail + rest);
      BranchesRoundTrip(bs[1..], ctx, rest);
    }
  }

  lemma {:induction false} BranchRoundTrip(b: IR.Branch, ctx: D.Context, rest: seq<byte>)
    requires IR.EncodeSub(b.when).Some? && IR.EncodeSub(b.result).Some?
    ensures var result := IR.EncodeSub(b.result).value;
            && D.ParseSub(IR.EncodeSub(b.when).value + (result + rest), ctx) ==
              With(TranslateSub(b.when, ctx), result + rest)
            && D.ParseSub(result + rest, ctx) == With(TranslateSub(b.result, ctx), rest)
    decreases b
  {
    SubRoundTrip(b.when, ctx, IR.EncodeSub(b.result).value + rest);
    SubRoundTrip(b.result, ctx, rest);
  }

  /** For every node the encoder accepts, the decoder consumes exactly its bytes, leaving any suffix. */
  lemma {:induction false} NodeRoundTrip(n: IR.Node, ctx: D.Context, rest: seq<byte>)
    requires IR.Encode(n).Some?
    ensures D.ParseNode(IR.Encode(n).value + rest, ctx) == With(Translate(n, ctx), rest)
    decreases n, 2
  {
    match n
    case ColumnRef(_) => LeafRoundTrip(n, ctx, rest);
    case Literal(_) => LeafRoundTrip(n, ctx, rest);
    case Cast(_, _) => CastRoundTrip(n, ctx, rest);
    case Binary(_, _, _) => OperatorRoundTrip(n, ctx, rest);
    case Comparison(_, _, _) => OperatorRoundTrip(n, ctx, rest);
    case Conjunction(_, _) => ConjunctionRoundTrip(n, ctx, rest);
    case Not(_) => UnaryRoundTrip(n, ctx, rest);
    case IsNull(_) => UnaryRoundTrip(n, ctx, rest);
    case IsNotNull(_) => UnaryRoundTrip(n, ctx, rest);
    case Function(_, _) => FunctionRoundTrip(n, ctx, rest);
    case Case(_, _) => CaseRoundTrip(n, ctx, rest);
    case InList(_, _, _) => InListRoundTrip(n, ctx, rest);
    case Like(_, _, _, _) => LikeRoundTrip(n, ctx, rest);
    case Regexp(_, _, _, _) => RegexpRoundTrip(n, ctx, rest);
  }

  lemma LeafRoundTrip(n: IR.Node, ctx: D.Context, rest: seq<byte>)
    requires IR.Encode(n).Some? && (n.ColumnRef? || n.Literal?)
    ensures D.ParseNode(IR.Encode(n).value + rest, ctx) == With(Translate(n, ctx), rest)
    decreases n, 1
  {
    if n.Literal? {
      var lit := IR.EncodeLiteral(n.value).value;
      assert [2] + lit + rest == [2] + (lit + rest);
      ReadTag(2, lit + rest);
      LiteralRoundTrip(n.value, rest);
    } else {
      var count, texts := IR.EncodeCount(|n.path|).value, IR.EncodeTexts(n.path).value;
      Concatenate3([1], count, texts, rest);
      ReadTag(1, count + (texts + rest));
      ReadCount(|n.path|, texts + rest);
      ReadTextsAfterWrite(n.path, rest);
    }
  }

  lemma DispatchCast(body: seq<byte>, ctx: D.Context)
    ensures D.ParseNode([3] + body, ctx) == D.ParseCast(body, ctx)
  {
    ReadTag(3, body);
  }

  lemma {:induction false} CastRoundTrip(n: IR.Node, ctx: D.Context, rest: seq<byte>)
    requires IR.Encode(n).Some? && n.Cast?
    ensures D.ParseNode(IR.Encode(n).value + rest, ctx) == With(Translate(n, ctx), rest)
    decreases n, 1
  {
    var ty, c := IR.EncodeType(n.to).value, IR.EncodeSub(n.child).value;
    Concatenate3([3], ty, c, rest);
    DispatchCast(ty + (c + rest), ctx);
    TypeRoundTrip(n.to, c + rest);
    SubRoundTrip(n.child, ctx, rest);
  }

  lemma DispatchOperator(n: IR.Node, tag: byte, opTag: byte, op: D.Operator, body: seq<byte>, ctx: D.Context)
    requires (n.Binary? && tag == 4 && opTag == IR.ArithmeticTag(n.op) && op == D.Arithmetic(n.op))
             || (n.Comparison? && tag == 5 && opTag == IR.CompareTag(n.cmp) && op == D.Compare(n.cmp))
    ensures D.ParseNode([tag, opTag] + body, ctx) == D.ParseOperands(body, op, ctx)
  {
    ReadTwoTags(tag, opTag, body);
  }

  lemma {:induction false} OperandsRoundTrip(n: IR.Node, op: D.Operator, ctx: D.Context, rest: seq<byte>)
    requires n.Binary? || n.Comparison?
    requires IR.EncodeSub(n.lhs).Some? && IR.EncodeSub(n.rhs).Some?
    ensures D.ParseOperands(IR.EncodeSub(n.lhs).value + (IR.EncodeSub(n.rhs).value + rest), op, ctx)
            == if TranslateSub(n.lhs, ctx).None? || TranslateSub(n.rhs, ctx).None? then None
               else Some((D.BinaryExpr(TranslateSub(n.lhs, ctx).value, op, TranslateSub(n.rhs, ctx).value), rest))
    decreases n, 0
  {
    SubRoundTrip(n.lhs, ctx, IR.EncodeSub(n.rhs).value + rest);
    SubRoundTrip(n.rhs, ctx, rest);
  }

  lemma {:induction false} OperatorRoundTrip(n: IR.Node, ctx: D.Context, rest: seq<byte>)
    requires IR.Encode(n).Some? && (n.Binary? || n.Comparison?)
    ensures D.ParseNode(IR.Encode(n).value + rest, ctx) == With(Translate(n, ctx), rest)
    decreases n, 1
  {
    var tag: byte := if n.Binary? then 4 else 5;
    var opTag := if n.Binary? then IR.ArithmeticTag(n.op) else IR.CompareTag(n.cmp);
    var op := if n.Binary? then D.Arithmetic(n.op) else D.Compare(n.cmp);
    var l, r := IR.EncodeSub(n.lhs).value, IR.EncodeSub(n.rhs).value;
    Concatenate3([tag, opTag], l, r, rest);
    DispatchOperator(n, tag, opTag, op, l + (r + rest), ctx);
    OperandsRoundTrip(n, op, ctx, rest);
  }

  lemma DispatchConjunction(op: IR.ConjunctionOp, body: seq<byte>, ctx: D.Context)
    ensures D.ParseNode([6, IR.ConjunctionTag(op)] + body, ctx) == D.ParseConjunction(body, op, ctx)
  {
    ReadTwoTags(6, IR.ConjunctionTag(op), body);
  }

  lemma {:induction false} ConjunctionRoundTrip(n: IR.Node, ctx: D.Context, rest: seq<byte>)
    requires IR.Encode(n).Some? && n.Conjunction?
    ensures D.ParseNode(IR.Encode(n).value + rest, ctx) == With(Translate(n, ctx), rest)
    decreases n, 1
  {
    var tag, count, subs := IR.ConjunctionTag(n.conj), IR.EncodeCount(|n.children|).value,
      IR.EncodeSubs(n.children).value;
    Concatenate3([6, tag], count, subs, rest);
    DispatchConjunction(n.conj, count + (subs + rest), ctx);
    ReadCount(|n.children|, subs + rest);
    SubsRoundTrip(n.children, ctx, rest);
  }

  lemma DispatchUnary(tag: byte, body: seq<byte>, ctx: D.Context)
    requires tag == 7 || tag == 10 || tag == 11
    ensures D.ParseNode([tag] + body, ctx) == D.ParseUnary(tag, body, ctx)
  {
    ReadTag(tag, body);
  }

  lemma {:induction false} UnaryRoundTrip(n: IR.Node, ctx: D.Context, rest: seq<byte>)
    requires IR.Encode(n).Some? && (n.Not? || n.IsNull? || n.IsNotNull?)
    ensures D.ParseNode(IR.Encode(n).value + rest, ctx) == With(Translate(n, ctx), rest)
    decreases n, 1
  {
    var tag: byte := if n.Not? then 7 else if n.IsNull? then 10 else 11;
    var c := IR.EncodeSub(n.child).value;
    assert [tag] + c + rest == [tag] + (c + rest);
    DispatchUnary(tag, c + rest, ctx);
    SubRoundTrip(n.child, ctx, rest);
  }

  lemma DispatchFunction(body: seq<byte>, ctx: D.Context)
    ensures D.ParseNode([8] + body, ctx) == D.ParseFunction(body, ctx)
  {
    ReadTag(8, body);
  }

  lemma {:induction false} FunctionRoundTrip(n: IR.Node, ctx: D.Context, rest: seq<byte>)
    requires IR.Encode(n).Some? && n.Function?
    ensures D.ParseNode(IR.Encode(n).value + rest, ctx) == With(Translate(n, ctx), rest)
    decreases n, 1
  {
    var name, count, subs := LenPrefixed(IR.Lower(n.name)).value, IR.EncodeCount(|n.args|).value,
      IR.EncodeSubs(n.args).value;
    Concatenate4([8], name, count, subs, rest);
    DispatchFunction(name + (count + (subs + rest)), ctx);
    ReadTextAfterWrite(IR.Lower(n.name), count + (subs + rest));
    ReadCount(|n.args|, subs + rest);
    SubsRoundTrip(n.args, ctx, rest);
  }

  lemma DispatchCase(body: seq<byte>, ctx: D.Context)
    ensures D.ParseNode([9] + body, ctx) == D.ParseCase(body, ctx)
  {
    ReadTag(9, body);
  }

  /** The bytes of a CASE after its branches. */
  function ElseBytes(n: IR.Node, rest: seq<byte>): seq<byte>
    requires n.Case? && IR.Encode(n).Some?
  {
    if n.otherwise.Some? then [1] + (IR.EncodeSub(n.otherwise.value).value + rest) else [0] + rest
  }

  lemma CaseLayout(n: IR.Node, rest: seq<byte>)
    requires IR.Encode(n).Some? && n.Case?
    ensures IR.Encode(n).value + rest
            == [9] + (IR.EncodeCount(|n.branches|).value + (IR.EncodeBranches(n.branches).value + ElseBytes(n, rest)))
  {
    var count, bs := IR.EncodeCount(|n.branches|).value, IR.EncodeBranches(n.branches).value;
    if n.otherwise.Some? {
      var e := IR.EncodeSub(n.otherwise.value).value;
      assert [9] + count + bs + [1] + e + rest == [9] + (count + (bs + ([1] + (e + rest))));
    } else {
      assert [9] + count + bs + [0] + rest == [9] + (count + (bs + ([0] + rest)));
    }
  }

  lemma {:induction false} CaseRoundTrip(n: IR.Node, ctx: D.Context, rest: seq<byte>)
    requires IR.Encode(n).Some? && n.Case?
    ensures D.ParseNode(IR.Encode(n).value + rest, ctx) == With(Translate(n, ctx), rest)
    decreases n, 1
  {
    var count, bs := IR.EncodeCount(|n.branches|).value, IR.EncodeBranches(n.branches).value;
    var after := ElseBytes(n, rest);
    CaseLayout(n, rest);
    DispatchCase(count + (bs + after), ctx);
    ReadCount(|n.branches|, bs + after);
    BranchesRoundTrip(n.branches, ctx, after);
    if n.otherwise.Some? {
      ReadTag(1, IR.EncodeSub(n.otherwise.value).value + rest);
      SubRoundTrip(n.otherwise.value, ctx, rest);
    } else {
      ReadTag(0, rest);
    }
  }

  lemma DispatchInList(negated: bool, body: seq<byte>, ctx: D.Context)
    ensures D.ParseNode([12, if negated then 1 else 0] + body, ctx) == D.ParseInList(body, negated, ctx)
  {
    ReadTwoTags(12, if negated then 1 else 0, body);
  }

  lemma {:induction false} InListRoundTrip(n: IR.Node, ctx: D.Context, rest: seq<byte>)
    requires IR.Encode(n).Some? && n.InList?
    ensures D.ParseNode(IR.Encode(n).value + rest, ctx) == With(Translate(n, ctx), rest)
    decreases n, 1
  {
    var flag: byte := if n.negated then 1 else 0;
    var c, count, subs := IR.EncodeSub(n.child).value, IR.EncodeCount(|n.items|).value, IR.EncodeSubs(n.items).value;
    Concatenate4([12, flag], c, count, subs, rest);
    DispatchInList(n.negated, c + (count + (subs + rest)), ctx);
    SubRoundTrip(n.child, ctx, count + (subs + rest));
    ReadCount(|n.items|, subs + rest);
    SubsRoundTrip(n.items, ctx, rest);
  }

  lemma DispatchLike(flags: byte, body: seq<byte>, ctx: D.Context)
    ensures D.ParseNode([13, flags] + body, ctx) == D.ParseLike(body, flags, ctx)
  {
    ReadTwoTags(13, flags, body);
  }

  lemma ReadLikeFlags(caseInsensitive: bool, escape: Option<byte>)
    ensures var flags := IR.LikeFlags(caseInsensitive, escape);
            ((flags / 2) % 2 == 0 <==> escape.None?) && (flags % 2 == 1 <==> caseInsensitive)
  {
  }

  lemma {:induction false} LikeBodyRoundTrip(n: IR.Node, flags: byte, ctx: D.Context, e: seq<byte>, rest: seq<byte>)
    requires n.Like? && IR.EncodeSub(n.child).Some? && IR.EncodeSub(n.pattern).Some?
    requires flags == IR.LikeFlags(n.caseInsensitive, n.escape)
    requires e == if n.escape.Some? then [n.escape.value] + rest else rest
    ensures D.ParseLike(IR.EncodeSub(n.child).value + (IR.EncodeSub(n.pattern).value + e), flags, ctx)
            == if TranslateSub(n.child, ctx).None? || TranslateSub(n.pattern, ctx).None? then None
               else Some((D.Like(TranslateSub(n.child, ctx).value, TranslateSub(n.pattern, ctx).value, n.escape,
                 n.caseInsensitive), rest))
    decreases n, 0
  {
    SubRoundTrip(n.child, ctx, IR.EncodeSub(n.pattern).value + e);
    SubRoundTrip(n.pattern, ctx, e);
    ReadLikeFlags(n.caseInsensitive, n.escape);
    if n.escape.Some? {
      ReadTag(n.escape.value, rest);
    }
  }

  lemma {:induction false} LikeRoundTrip(n: IR.Node, ctx: D.Context, rest: seq<byte>)
    requires IR.Encode(n).Some? && n.Like?
    ensures D.ParseNode(IR.Encode(n).value + rest, ctx) == With(Translate(n, ctx), rest)
    decreases n, 1
  {
    var flags := IR.LikeFlags(n.caseInsensitive, n.escape);
    var c, p := IR.EncodeSub(n.child).value, IR.EncodeSub(n.pattern).value;
    var e: seq<byte> := if n.escape.Some? then [n.escape.value] else [];
    Concatenate4([13, flags], c, p, e, rest);
    DispatchLike(flags, c + (p + (e + rest)), ctx);
    assert n.escape.None? ==> e + rest == rest;
    LikeBodyRoundTrip(n, flags, ctx, e + rest, rest);
  }

  lemma DispatchTag(tag: byte, body: seq<byte>, ctx: D.Context)
    ensures D.ParseNode([tag] + body, ctx) == D.ParseTagged(tag, body, ctx)
  {
    ReadTag(tag, body);
  }

  lemma DispatchRegexp(mode: byte, hasFlags: bool, body: seq<byte>, ctx: D.Context)
    ensures D.ParseNode([14, mode, if hasFlags then 1 else 0] + body, ctx) == D.ParseRegexp(body, mode, hasFlags, ctx)
  {
    var flag: byte := if hasFlags then 1 else 0;
    assert [14, mode, flag] + body == [14] + ([mode, flag] + body);
    DispatchTag(14, [mode, flag] + body, ctx);
    ReadTwoTags(mode, flag, body);
  }

  lemma RegexpLayout(n: IR.Node, rest: seq<byte>)
    requires IR.Encode(n).Some? && n.Regexp?
    ensures var f := if n.flags.Some? then IR.EncodeSub(n.flags.value).value + rest else rest;
            IR.Encode(n).value + rest
            == [14, n.mode, if n.flags.Some? then 1 else 0]
               + (IR.EncodeSub(n.child).value + (IR.EncodeSub(n.pattern).value + f))
  {
    var c, p := IR.EncodeSub(n.child).value, IR.EncodeSub(n.pattern).value;
    if n.flags.Some? {
      Concatenate4([14, n.mode, 1], c, p, IR.EncodeSub(n.flags.value).value, rest);
    } else {
      Concatenate3([14, n.mode, 0], c, p, rest);
    }
  }

  lemma {:induction false} RegexpRoundTrip(n: IR.Node, ctx: D.Context, rest: seq<byte>)
    requires IR.Encode(n).Some? && n.Regexp?
    ensures D.ParseNode(IR.Encode(n).value + rest, ctx) == With(Translate(n, ctx), rest)
    decreases n, 1
  {
    var c, p := IR.EncodeSub(n.child).value, IR.EncodeSub(n.pattern).value;
    var f := if n.flags.Some? then IR.EncodeSub(n.flags.value).value + rest else rest;
    RegexpLayout(n, rest);
    DispatchRegexp(n.mode, n.flags.Some?, c + (p + f), ctx);
    SubRoundTrip(n.child, ctx, p + f);
    SubRoundTrip(n.pattern, ctx, f);
    if n.flags.Some? {
      SubRoundTrip(n.flags.value, ctx, rest);
    }
  }

  /** A complete message, magic included, decodes to the translated tree with no byte left over. */
  lemma MessageRoundTrip(magic: seq<byte>, n: IR.Node, ctx: D.Context)
    requires IR.Encode(n).Some?
    ensures D.ParseMessage(magic, magic + IR.Encode(n).value, ctx) == Translate(n, ctx)
  {
    var bytes := IR.Encode(n).value;
    assert (magic + bytes)[|magic|..] == bytes == bytes + [];
    NodeRoundTrip(n, ctx, []);
  }
}
