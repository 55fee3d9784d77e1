/** The expression tree that the C++ side encodes, and its byte form. */
module ExprIR {
  import opened Bytes
  import DecimalText

  type Text = seq<byte>
  type i32 = v: int | FitsSigned(v, 4)
  type i64 = v: int | FitsSigned(v, 8)
  type u32 = v: nat | v < Pow256(4)
  type u64 = v: nat | v < Pow256(8)

  datatype TimeUnit = Second | Millisecond | Microsecond | Nanosecond
  datatype TimestampKind = Plain | InSeconds | InMilliseconds | InNanoseconds | WithTimeZone

  /** DuckDB values as `EncodeLiteral` distinguishes them; floats are their bit patterns and a
      DECIMAL carries its printed form. */
  datatype Value =
    | NullValue
    | BoolValue(b: bool)
    | SignedValue(i: i64)
    | UnsignedValue(u: u64)
    | FloatValue(f32: u32)
    | DoubleValue(f64: u64)
    | TextValue(text: Text)
    | DateValue(days: i32, finiteDate: bool)
    | TimestampValue(kind: TimestampKind, ticks: i64, finiteTime: bool)
    | DecimalValue(width: byte, scale: byte, printed: Text)
    | OtherValue

  datatype LogicalType =
    | Boolean | TinyInt | SmallInt | Integer | BigInt | UTinyInt | USmallInt | UInteger | UBigInt
    | Float | Double | Varchar | Date | Timestamp(tsKind: TimestampKind)
    | Decimal(decWidth: byte, decScale: byte) | Struct(fields: seq<(Text, LogicalType)>) | OtherType

  datatype ArithmeticOp = Add | Sub | Mul | Div
  datatype CompareOp = Eq | NotEq | Lt | LtEq | Gt | GtEq | DistinctFrom | NotDistinctFrom
  datatype ConjunctionOp = And | Or

  datatype Branch = Branch(when: Node, result: Node)

  datatype Node =
    | ColumnRef(path: seq<Text>)
    | Literal(value: Value)
    | Cast(to: LogicalType, child: Node)
    | Binary(op: ArithmeticOp, lhs: Node, rhs: Node)
    | Comparison(cmp: CompareOp, lhs: Node, rhs: Node)
    | Conjunction(conj: ConjunctionOp, children: seq<Node>)
    | Not(child: Node)
    | Function(name: Text, args: seq<Node>)
    | Case(branches: seq<Branch>, otherwise: Option<Node>)
    | IsNull(child: Node)
    | IsNotNull(child: Node)
    | InList(negated: bool, child: Node, items: seq<Node>)
    | Like(caseInsensitive: bool, escape: Option<byte>, child: Node, pattern: Node)
    | Regexp(mode: byte, child: Node, pattern: Node, flags: Option<Node>)

  const MAX_DECIMAL_SCALE := 127
  const PARTIAL_MATCH: byte := 0
  const FULL_MATCH: byte := 1

  function UnitOf(kind: TimestampKind): TimeUnit {
    match kind
    case InSeconds => Second
    case InMilliseconds => Millisecond
    case InNanoseconds => Nanosecond
    case Plain => Microsecond
    case WithTimeZone => Microsecond
  }

  function UnitTag(u: TimeUnit): byte {
    match u
    case Second => 0
    case Millisecond => 1
    case Microsecond => 2
    case Nanosecond => 3
  }

  function ArithmeticTag(op: ArithmeticOp): byte {
    match op
    case Add => 1
    case Sub => 2
    case Mul => 3
    case Div => 4
  }

  function CompareTag(op: CompareOp): byte {
    match op
    case Eq => 0
    case NotEq => 1
    case Lt => 2
    case LtEq => 3
    case Gt => 4
    case GtEq => 5
    case DistinctFrom => 6
    case NotDistinctFrom => 7
  }

  function ConjunctionTag(op: ConjunctionOp): byte {
    match op
    case And => 1
    case Or => 2
  }

  function LikeFlags(caseInsensitive: bool, escape: Option<byte>): byte {
    (if caseInsensitive then 1 else 0) + (if escape.Some? then 2 else 0)
  }

  function LowerByte(b: byte): byte {
    if 0x41 <= b <= 0x5A then b + 32 else b
  }

  function Lower(s: Text): (r: Text)
    ensures |r| == |s|
  {
    seq(|s|, i requires 0 <= i < |s| => LowerByte(s[i]))
  }

  function EncodeLiteral(v: Value): Option<seq<byte>> {
    match v
    case NullValue => Some([0])
    case BoolValue(b) => Some([1, if b then 1 else 0])
    case SignedValue(i) => Some([2] + LittleEndian(Unsigned(i, 8), 8))
    case UnsignedValue(u) => Some([3] + LittleEndian(u, 8))
    case FloatValue(bits) => Some([4] + LittleEndian(bits, 4))
    case DoubleValue(bits) => Some([5] + LittleEndian(bits, 8))
    case TextValue(t) => var payload :- LenPrefixed(t); Some([6] + payload)
    case DateValue(d, finite) => if finite then Some([7] + LittleEndian(Unsigned(d, 4), 4)) else None
    case TimestampValue(kind, t, finite) =>
      if finite then Some([8, UnitTag(UnitOf(kind))] + LittleEndian(Unsigned(t, 8), 8)) else None
    case DecimalValue(width, scale, printed) =>
      if scale > MAX_DECIMAL_SCALE || !DecimalText.WellFormed(printed, scale) then None
      else
        var unscaled := DecimalText.UnscaledValue(printed, scale);
        if FitsSigned(unscaled, 16) then Some([9, width, scale] + LittleEndian(Unsigned(unscaled, 16), 16)) else None
    case OtherValue => None
  }

  function EncodeType(t: LogicalType): Option<seq<byte>> {
    match t
    case Boolean => Some([1])
    case TinyInt => Some([2])
    case SmallInt => Some([3])
    case Integer => Some([4])
    case BigInt => Some([5])
    case UTinyInt => Some([6])
    case USmallInt => Some([7])
    case UInteger => Some([8])
    case UBigInt => Some([9])
    case Float => Some([10])
    case Double => Some([11])
    case Varchar => Some([12])
    case Date => Some([13])
    case Timestamp(kind) => Some([14, UnitTag(UnitOf(kind))])
    case Decimal(width, scale) => if scale > MAX_DECIMAL_SCALE then None else Some([15, width, scale])
    case Struct(_) => None
    case OtherType => None
  }

  function EncodeTexts(texts: seq<Text>): Option<seq<byte>> {
    if texts == [] then Some([])
    else
      var head :- LenPrefixed(texts[0]);
      var tail :- EncodeTexts(texts[1..]);
      Some(head + tail)
  }

  function EncodeCount(n: nat): Option<seq<byte>> {
    if n < U32_LIMIT then Some(LittleEndian(n, 4)) else None
  }

  function EncodeSub(n: Node): Option<seq<byte>>
    decreases n, 1
  {
    var bytes :- Encode(n);
    LenPrefixed(bytes)
  }

  function EncodeSubs(ns: seq<Node>): Option<seq<byte>>
    decreases ns
  {
    if ns == [] then Some([])
    else
      var head :- EncodeSub(ns[0]);
      var tail :- EncodeSubs(ns[1..]);
      Some(head + tail)
  }

  function EncodeBranch(b: Branch): Option<seq<byte>>
    decreases b
  {
    var when :- EncodeSub(b.when);
    var result :- EncodeSub(b.result);
    Some(when + result)
  }

  function EncodeBranches(bs: seq<Branch>): Option<seq<byte>>
    decreases bs
  {
    if bs == [] then Some([])
    else
      var head :- EncodeBranch(bs[0]);
      var tail :- EncodeBranches(bs[1..]);
      Some(head + tail)
  }

  function Encode(n: Node): Option<seq<byte>>
    decreases n, 0
  {
    match n
    case ColumnRef(path) =>
      if path == [] || [] in path then None
      else
        var count :- EncodeCount(|path|);
        var texts :- EncodeTexts(path);
        Some([1] + count + texts)
    case Literal(v) =>
      var lit :- EncodeLiteral(v);
      Some([2] + lit)
    case Cast(to, child) =>
      var ty :- EncodeType(to);
      var c :- EncodeSub(child);
      Some([3] + ty + c)
    case Binary(op, lhs, rhs) =>
      var l :- EncodeSub(lhs);
      var r :- EncodeSub(rhs);
      Some([4, ArithmeticTag(op)] + l + r)
    case Comparison(op, lhs, rhs) =>
      var l :- EncodeSub(lhs);
      var r :- EncodeSub(rhs);
      Some([5, CompareTag(op)] + l + r)
    case Conjunction(op, children) =>
      if children == [] then None
      else
        var count :- EncodeCount(|children|);
        var subs :- EncodeSubs(children);
        Some([6, ConjunctionTag(op)] + count + subs)
    case Not(child) =>
      var c :- EncodeSub(child);
      Some([7] + c)
    case Function(name, args) =>
      var nm :- LenPrefixed(Lower(name));
      var count :- EncodeCount(|args|);
      var subs :- EncodeSubs(args);
      Some([8] + nm + count + subs)
    case Case(branches, otherwise) =>
      if branches == [] then None
      else
        var count :- EncodeCount(|branches|);
        var bs :- EncodeBranches(branches);
        if otherwise.None? then Some([9] + count + bs + [0])
        else
          var e :- EncodeSub(otherwise.value);
          Some([9] + count + bs + [1] + e)
    case IsNull(child) =>
      var c :- EncodeSub(child);
      Some([10] + c)
    case IsNotNull(child) =>
      var c :- EncodeSub(child);
      Some([11] + c)
    case InList(negated, child, items) =>
      var c :- EncodeSub(child);
      var count :- EncodeCount(|items|);
      var subs :- EncodeSubs(items);
      Some([12, if negated then 1 else 0] + c + count + subs)
    case Like(ci, escape, child, pattern) =>
      var c :- EncodeSub(child);
      var p :- EncodeSub(pattern);
      Some([13, LikeFlags(ci, escape)] + c + p + (if escape.Some? then [escape.value] else []))
    case Regexp(mode, child, pattern, flags) =>
      if mode != PARTIAL_MATCH && mode != FULL_MATCH then None
      else
        var c :- EncodeSub(child);
        var p :- EncodeSub(pattern);
        if flags.None? then Some([14, mode, 0] + c + p)
        else
          var f :- EncodeSub(flags.value);
          Some([14, mode, 1] + c + p + f)
  }
}
