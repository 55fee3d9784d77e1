/** The aggregate-execution IR: a self-delimiting prefix code, and the version-4 message around it. */
module ExecIr {
  import opened Bytes
  import Utf8

  type Text = seq<byte>
  type i64 = v: int | FitsSigned(v, 8)
  type i128 = v: int | FitsSigned(v, 16)
  type u64 = v: nat | v < Pow256(8)

  datatype Hint = BoolHint | Int64Hint | DoubleHint | DateHint | TimestampHint | Utf8Hint | DecimalHint(precision: byte,
    scale: byte)
  datatype Lit = NullLit | IntLit(i: i64) | DoubleLit(bits: u64) | BoolLit(b: bool) | TextLit(text: Text)
               | DecimalLit(precision: byte, scale: byte, unscaled: i128)
  datatype Op = Add | Sub | Mul | Div
  datatype Expr = Column(name: Text) | Literal(lit: Lit) | Binary(op: Op, lhs: Expr, rhs: Expr) | Cast(to: Hint,
    child: Expr)

  datatype AggFunc = Sum | Count | CountStar | Min | Max | Avg
  datatype Group = Group(name: Text, expr: Expr, hint: Hint)
  datatype Agg = Agg(func: AggFunc, name: Text, args: seq<Expr>, hint: Option<Hint>)
  datatype OrderKey = OrderKey(column: Text, ascending: bool, nullsFirst: bool)
  datatype Message = Message(filter: seq<byte>, projection: seq<Text>, groups: seq<Group>, aggs: seq<Agg>,
    order: seq<OrderKey>)

  type Parsed<T> = Option<(T, seq<byte>)>

  // Writing.

  function HintBytes(h: Hint): seq<byte> {
    match h
    case BoolHint => [1]
    case Int64Hint => [2]
    case DoubleHint => [3]
    case DateHint => [4]
    case TimestampHint => [5]
    case Utf8Hint => [6]
    case DecimalHint(p, s) => [7, p, s]
  }

  function OpTag(op: Op): byte {
    match op
    case Add => 1
    case Sub => 2
    case Mul => 3
    case Div => 4
  }

  function FuncTag(f: AggFunc): byte {
    match f
    case Sum => 1
    case Count => 2
    case CountStar => 3
    case Min => 4
    case Max => 5
    case Avg => 6
  }

  function LitBytes(l: Lit): Option<seq<byte>> {
    match l
    case NullLit => Some([0])
    case IntLit(i) => Some([1] + LittleEndian(Unsigned(i, 8), 8))
    case DoubleLit(bits) => Some([2] + LittleEndian(bits, 8))
    case BoolLit(b) => Some([3, Flag(b)])
    case TextLit(t) => var s :- LenPrefixed(t); Some([4] + s)
    case DecimalLit(p, s, v) => Some([5, p, s] + LittleEndian(Unsigned(v, 16), 16))
  }

  function Flag(b: bool): byte {
    if b then 1 else 0
  }

  /** Preorder bytes of an expression. */
  function ExprBytes(e: Expr): Option<seq<byte>> {
    match e
    case Column(name) => var s :- LenPrefixed(name); Some([1] + s)
    case Literal(lit) => var s :- LitBytes(lit); Some([2] + s)
    case Binary(op, l, r) =>
      var x :- ExprBytes(l);
      var y :- ExprBytes(r);
      Some([3, OpTag(op)] + x + y)
    case Cast(to, child) =>
      var x :- ExprBytes(child);
      Some([4] + HintBytes(to) + x)
  }

  // Reading.

  function ReadText(s: seq<byte>): Parsed<Text> {
    var (t, rest) :- ReadLenPrefixed(s);
    if Utf8.Valid(t) then Some((t, rest)) else None
  }

  function ReadHint(s: seq<byte>): (r: Parsed<Hint>)
    ensures r.Some? ==> |r.value.1| < |s|
  {
    var (tag, rest) :- ReadU8(s);
    match tag
    case 1 => Some((BoolHint, rest))
    case 2 => Some((Int64Hint, rest))
    case 3 => Some((DoubleHint, rest))
    case 4 => Some((DateHint, rest))
    case 5 => Some((TimestampHint, rest))
    case 6 => Some((Utf8Hint, rest))
    case 7 =>
      var (p, s1) :- ReadU8(rest);
      var (sc, s2) :- ReadU8(s1);
      Some((DecimalHint(p, sc), s2))
    case _ => None
  }

  function ReadOp(s: seq<byte>): (r: Parsed<Op>)
    ensures r.Some? ==> |r.value.1| < |s|
  {
    var (tag, rest) :- ReadU8(s);
    match tag
    case 1 => Some((Add, rest))
    case 2 => Some((Sub, rest))
    case 3 => Some((Mul, rest))
    case 4 => Some((Div, rest))
    case _ => None
  }

  function ReadFunc(s: seq<byte>): Parsed<AggFunc> {
    var (tag, rest) :- ReadU8(s);
    match tag
    case 1 => Some((Sum, rest))
    case 2 => Some((Count, rest))
    case 3 => Some((CountStar, rest))
    case 4 => Some((Min, rest))
    case 5 => Some((Max, rest))
    case 6 => Some((Avg, rest))
    case _ => None
  }

  function AsI64(u: nat): i64 {
    if FitsSigned(Signed(u, 8), 8) then Signed(u, 8) else 0
  }

  function AsI128(u: nat): i128 {
    if FitsSigned(Signed(u, 16), 16) then Signed(u, 16) else 0
  }

  function AsU64(u: nat): u64 {
    u % Pow256(8)
  }

  function ReadLit(s: seq<byte>): Parsed<Lit> {
    var (tag, s1) :- ReadU8(s);
    match tag
    case 0 => Some((NullLit, s1))
    case 1 => var (u, s2) :- ReadUnsigned(s1, 8); Some((IntLit(AsI64(u)), s2))
    case 2 => var (u, s2) :- ReadUnsigned(s1, 8); Some((DoubleLit(AsU64(u)), s2))
    case 3 => var (b, s2) :- ReadU8(s1); Some((BoolLit(b != 0), s2))
    case 4 => var (t, s2) :- ReadText(s1); Some((TextLit(t), s2))
    case 5 => ReadDecimal(s1)
    case _ => None
  }

  function ReadDecimal(s: seq<byte>): Parsed<Lit> {
    var (p, s1) :- ReadU8(s);
    var (sc, s2) :- ReadU8(s1);
    var (u, s3) :- ReadUnsigned(s2, 16);
    Some((DecimalLit(p, sc, AsI128(u)), s3))
  }

  function ReadExpr(s: seq<byte>): (r: Parsed<Expr>)
    ensures r.Some? ==> |r.value.1| < |s|
    decreases |s|
  {
    var (tag, s1) :- ReadU8(s);
    match tag
    case 1 => var (name, s2) :- ReadText(s1); Some((Column(name), s2))
    case 2 => var (lit, s2) :- ReadLit(s1); Some((Literal(lit), s2))
    case 3 =>
      var (op, s2) :- ReadOp(s1);
      var (l, s3) :- ReadExpr(s2);
      var (r, s4) :- ReadExpr(s3);
      Some((Binary(op, l, r), s4))
    case 4 =>
      var (to, s2) :- ReadHint(s1);
      var (child, s3) :- ReadExpr(s2);
      Some((Cast(to, child), s3))
    case _ => None
  }

  // The prefix code.

  predicate ReadableLit(l: Lit) {
    l.TextLit? ==> Utf8.Valid(l.text)
  }

  predicate Readable(e: Expr) {
    match e
    case Column(name) => Utf8.Valid(name)
    case Literal(l) => ReadableLit(l)
    case Binary(_, l, r) => Readable(l) && Readable(r)
    case Cast(_, child) => Readable(child)
  }

  lemma U8After(b: byte, rest: seq<byte>)
    ensures ReadU8([b] + rest) == Some((b, rest))
  {
    assert ([b] + rest)[1..] == rest;
  }

  lemma TextAfter(t: Text, rest: seq<byte>)
    requires LenPrefixed(t).Some? && Utf8.Valid(t)
    ensures ReadText(LenPrefixed(t).value + rest) == Some((t, rest))
  {
    ReadLenPrefixedAfterWrite(t, rest);
  }

  lemma HintAfter(h: Hint, rest: seq<byte>)
    ensures ReadHint(HintBytes(h) + rest) == Some((h, rest))
  {
    var s := HintBytes(h) + rest;
    if h.DecimalHint? {
      assert s == [7] + ([h.precision] + ([h.scale] + rest));
      U8After(7, [h.precision] + ([h.scale] + rest));
      U8After(h.precision, [h.scale] + rest);
      U8After(h.scale, rest);
    } else {
      U8After(HintBytes(h)[0], rest);
    }
  }

  lemma SignedAfter(v: int, n: nat, rest: seq<byte>)
    requires FitsSigned(v, n)
    ensures var r := ReadUnsigned(LittleEndian(Unsigned(v, n), n) + rest, n);
        r.Some? && Signed(r.value.0, n) == v && r.value.1 == rest
  {
    ReadBytesAfterWrite(LittleEndian(Unsigned(v, n), n), rest);
    SignedRoundTrip(v, n);
  }

  lemma LitAfter(l: Lit, rest: seq<byte>)
    requires LitBytes(l).Some? && ReadableLit(l)
    ensures ReadLit(LitBytes(l).value + rest) == Some((l, rest))
  {
    match l
    case NullLit => U8After(0, rest);
    case IntLit(i) => IntAfter(i, rest);
    case DoubleLit(bits) => DoubleAfter(bits, rest);
    case BoolLit(b) =>
      assert LitBytes(l).value + rest == [3] + ([Flag(b)] + rest);
      U8After(3, [Flag(b)] + rest);
      U8After(Flag(b), rest);
    case TextLit(t) =>
      assert LitBytes(l).value + rest == [4] + (LenPrefixed(t).value + rest);
      U8After(4, LenPrefixed(t).value + rest);
      TextAfter(t, rest);
    case DecimalLit(p, s, v) => DecimalLitAfter(p, s, v, rest);
  }

  lemma IntAfter(i: i64, rest: seq<byte>)
    ensures ReadLit([1] + LittleEndian(Unsigned(i, 8), 8) + rest) == Some((IntLit(i), rest))
  {
    var body := LittleEndian(Unsigned(i, 8), 8) + rest;
    assert [1] + LittleEndian(Unsigned(i, 8), 8) + rest == [1] + body;
    U8After(1, body);
    SignedAfter(i, 8, rest);
  }

  lemma DoubleAfter(bits: u64, rest: seq<byte>)
    ensures ReadLit([2] + LittleEndian(bits, 8) + rest) == Some((DoubleLit(bits), rest))
  {
    var body := LittleEndian(bits, 8) + rest;
    assert [2] + LittleEndian(bits, 8) + rest == [2] + body;
    U8After(2, body);
    ReadUnsignedAfterWrite(bits, 8, rest);
    SmallRemainder(bits, Pow256(8));
  }

  lemma DecimalLitAfter(p: byte, s: byte, v: i128, rest: seq<byte>)
    ensures ReadLit([5, p, s] + LittleEndian(Unsigned(v, 16), 16) + rest) == Some((DecimalLit(p, s, v), rest))
  {
    var digits := LittleEndian(Unsigned(v, 16), 16);
    DecimalLayout(p, s, digits, rest);
    U8After(5, [p] + ([s] + (digits + rest)));
    SignedAfter(v, 16, rest);
    DecimalAfter(p, s, v, digits + rest, rest);
  }

  lemma DecimalLayout(p: byte, s: byte, digits: seq<byte>, rest: seq<byte>)
    ensures [5, p, s] + digits + rest == [5] + ([p] + ([s] + (digits + rest)))
  {
  }

  lemma DecimalAfter(p: byte, s: byte, v: i128, digits: seq<byte>, rest: seq<byte>)
    requires var r := ReadUnsigned(digits, 16); r.Some? && Signed(r.value.0, 16) == v && r.value.1 == rest
    ensures ReadDecimal([p] + ([s] + digits)) == Some((DecimalLit(p, s, v), rest))
  {
    U8After(p, [s] + digits);
    U8After(s, digits);
  }

  lemma OpAfter(op: Op, rest: seq<byte>)
    ensures ReadOp([OpTag(op)] + rest) == Some((op, rest))
  {
    U8After(OpTag(op), rest);
  }

  lemma Layout(tag: seq<byte>, x: seq<byte>, y: seq<byte>, rest: seq<byte>)
    ensures tag + x + y + rest == tag + (x + (y + rest))
  {
  }

  /** Reading what was written, followed by anything, gives the expression and exactly that rest. */
  lemma {:induction false} PrefixCode(e: Expr, rest: seq<byte>)
    requires ExprBytes(e).Some? && Readable(e)
    ensures ReadExpr(ExprBytes(e).value + rest) == Some((e, rest))
    decreases e, 1
  {
    match e
    case Column(name) =>
      assert ExprBytes(e).value + rest == [1] + (LenPrefixed(name).value + rest);
      U8After(1, LenPrefixed(name).value + rest);
      TextAfter(name, rest);
    case Literal(lit) =>
      assert ExprBytes(e).value + rest == [2] + (LitBytes(lit).value + rest);
      U8After(2, LitBytes(lit).value + rest);
      LitAfter(lit, rest);
    case Binary(_, _, _) => BinaryAfter(e, rest);
    case Cast(to, child) =>
      var x := ExprBytes(child).value + rest;
      Layout([4], HintBytes(to), ExprBytes(child).value, rest);
      U8After(4, HintBytes(to) + x);
      HintAfter(to, x);
      PrefixCode(child, rest);
  }

  lemma {:induction false} BinaryAfter(e: Expr, rest: seq<byte>)
    requires e.Binary? && ExprBytes(e).Some? && Readable(e)
    ensures ReadExpr(ExprBytes(e).value + rest) == Some((e, rest))
    decreases e, 0
  {
    var y := ExprBytes(e.rhs).value + rest;
    var x := ExprBytes(e.lhs).value + y;
    Layout([3, OpTag(e.op)], ExprBytes(e.lhs).value, ExprBytes(e.rhs).value, rest);
    assert [3, OpTag(e.op)] + x == [3] + ([OpTag(e.op)] + x);
    U8After(3, [OpTag(e.op)] + x);
    OpAfter(e.op, x);
    PrefixCode(e.lhs, y);
    PrefixCode(e.rhs, rest);
  }

  /** No encoding is a prefix of another: equal streams start with the same expression. */
  lemma PrefixFree(e: Expr, f: Expr, r: seq<byte>, s: seq<byte>)
    requires ExprBytes(e).Some? && ExprBytes(f).Some? && Readable(e) && Readable(f)
    requires ExprBytes(e).value + r == ExprBytes(f).value + s
    ensures e == f && r == s
  {
    PrefixCode(e, r);
    PrefixCode(f, s);
  }

  // Lists and the message.

  type Reader<!T> = seq<byte> -> Parsed<T>

  function Many<T>(read: Reader<T>, s: seq<byte>, n: nat): (r: Parsed<seq<T>>)
    ensures r.Some? ==> |r.value.0| == n
    decreases n
  {
    if n == 0 then Some(([], s))
    else
      var (x, s1) :- read(s);
      var (xs, s2) :- Many(read, s1, n - 1);
      Some(([x] + xs, s2))
  }

  function Concat(parts: seq<seq<byte>>): seq<byte> {
    if parts == [] then [] else parts[0] + Concat(parts[1..])
  }

  /** `bytes` reads back as `x` whatever follows. */
  ghost predicate ReadsAs<T(!new)>(read: Reader<T>, bytes: seq<byte>, x: T) {
    forall rest :: read(bytes + rest) == Some((x, rest))
  }

  lemma {:induction false} ManyAfter<T(!new)>(read: Reader<T>, xs: seq<T>, parts: seq<seq<byte>>, rest: seq<byte>)
    requires |xs| == |parts| && forall i | 0 <= i < |xs| :: ReadsAs(read, parts[i], xs[i])
    ensures Many(read, Concat(parts) + rest, |xs|) == Some((xs, rest))
    decreases |xs|
  {
    if xs != [] {
      var tail := Concat(parts[1..]) + rest;
      assert Concat(parts) + rest == parts[0] + tail;
      assert ReadsAs(read, parts[0], xs[0]);
      ManyAfter(read, xs[1..], parts[1..], rest);
      assert [xs[0]] + xs[1..] == xs;
    } else {
      assert Concat(parts) + rest == rest;
    }
  }

  /** A list after its 32-bit count. */
  function Counted<T>(read: Reader<T>, s: seq<byte>): Parsed<seq<T>> {
    var (n, s1) :- ReadUnsigned(s, 4);
    Many(read, s1, n)
  }

  function CountedBytes(parts: seq<seq<byte>>): Option<seq<byte>> {
    if |parts| < U32_LIMIT then Some(LittleEndian(|parts|, 4) + Concat(parts)) else None
  }

  lemma CountAfter(n: nat, rest: seq<byte>)
    requires n < U32_LIMIT
    ensures ReadUnsigned(LittleEndian(n, 4) + rest, 4) == Some((n, rest))
  {
    FieldWidths();
    ReadUnsignedAfterWrite(n, 4, rest);
  }

  lemma CountedAfter<T(!new)>(read: Reader<T>, xs: seq<T>, parts: seq<seq<byte>>, rest: seq<byte>)
    requires |xs| == |parts| && CountedBytes(parts).Some? && forall i | 0 <= i < |xs| :: ReadsAs(read, parts[i], xs[i])
    ensures Counted(read, CountedBytes(parts).value + rest) == Some((xs, rest))
  {
    var count := LittleEndian(|parts|, 4);
    assert CountedBytes(parts).value + rest == count + (Concat(parts) + rest);
    CountAfter(|parts|, Concat(parts) + rest);
    ManyAfter(read, xs, parts, rest);
  }

  function TextBytes(t: Text): Option<seq<byte>> {
    LenPrefixed(t)
  }

  function GroupBytes(g: Group): Option<seq<byte>> {
    var name :- LenPrefixed(g.name);
    var expr :- ExprBytes(g.expr);
    Some(name + expr + HintBytes(g.hint))
  }

  function AggBytes(a: Agg): Option<seq<byte>> {
    if a.hint.None? then None
    else
      var name :- LenPrefixed(a.name);
      var parts :- All(a.args, ExprBytes);
      var args :- CountedBytes(parts);
      Some([FuncTag(a.func)] + name + args + HintBytes(a.hint.value))
  }

  function OrderBytes(k: OrderKey): Option<seq<byte>> {
    var name :- LenPrefixed(k.column);
    Some(name + [Flag(k.ascending), Flag(k.nullsFirst)])
  }

  function All<T>(xs: seq<T>, write: T -> Option<seq<byte>>): (r: Option<seq<seq<byte>>>)
    ensures r.Some? ==> |r.value| == |xs| && forall i | 0 <= i < |xs| :: write(xs[i]) == Some(r.value[i])
  {
    if xs == [] then Some([])
    else
      var x :- write(xs[0]);
      var rest :- All(xs[1..], write);
      Some([x] + rest)
  }

  const MAGIC: seq<byte> := [0x4C, 0x45, 0x58, 0x31] // "LEX1"

  /** A list section: its count and its elements. */
  function Section<T>(xs: seq<T>, write: T -> Option<seq<byte>>): Option<seq<byte>> {
    var parts :- All(xs, write);
    CountedBytes(parts)
  }

  /** The version-4 message. */
  function MessageBytes(m: Message): Option<seq<byte>> {
    var filter :- LenPrefixed(m.filter);
    var projection :- Section(m.projection, TextBytes);
    var groups :- Section(m.groups, GroupBytes);
    var aggs :- Section(m.aggs, AggBytes);
    var order :- Section(m.order, OrderBytes);
    Some(MAGIC + (LittleEndian(4, 4) + (LittleEndian(0, 4) + (filter + (projection + (groups + (aggs + order)))))))
  }

  function ReadGroup(s: seq<byte>): Parsed<Group> {
    var (name, s1) :- ReadText(s);
    var (expr, s2) :- ReadExpr(s1);
    var (hint, s3) :- ReadHint(s2);
    Some((Group(name, expr, hint), s3))
  }

  function ReadAggAt(s: seq<byte>, withHint: bool): Parsed<Agg> {
    var (func, s1) :- ReadFunc(s);
    var (name, s2) :- ReadText(s1);
    var (args, s3) :- Counted(ReadExpr, s2);
    if withHint then
      var (hint, s4) :- ReadHint(s3);
      Some((Agg(func, name, args, Some(hint)), s4))
    else Some((Agg(func, name, args, None), s3))
  }

  function ReadAgg(withHint: bool): Reader<Agg> {
    (s: seq<byte>) => ReadAggAt(s, withHint)
  }

  function ReadOrder(s: seq<byte>): Parsed<OrderKey> {
    var (column, s1) :- ReadText(s);
    var (ascending, s2) :- ReadU8(s1);
    var (nullsFirst, s3) :- ReadU8(s2);
    Some((OrderKey(column, ascending != 0, nullsFirst != 0), s3))
  }

  /** Reads versions 1 to 4. */
  function ReadMessage(s: seq<byte>): Option<Message> {
    var (magic, s1) :- ReadBytes(s, 4);
    var (version, s2) :- ReadUnsigned(s1, 4);
    var (_, s3) :- ReadUnsigned(s2, 4);
    if magic != MAGIC || !(1 <= version <= 4) then None else ReadBody(s3, version)
  }

  /** Groups and order keys exist from version 3, aggregate types from version 2. */
  function ReadBody(s: seq<byte>, version: nat): Option<Message> {
    var (filter, s1) :- ReadLenPrefixed(s);
    var (projection, s2) :- Counted(ReadText, s1);
    var (groups, s3) :- if version >= 3 then Counted(ReadGroup, s2) else Some(([], s2));
    var (aggs, s4) :- Counted(ReadAgg(version >= 2), s3);
    var (order, s5) :- if version >= 3 then Counted(ReadOrder, s4) else Some(([], s4));
    if s5 == [] then Some(Message(filter, projection, groups, aggs, order)) else None
  }

  predicate ReadableMessage(m: Message) {
    && (forall i | 0 <= i < |m.projection| :: Utf8.Valid(m.projection[i]))
    && (forall i | 0 <= i < |m.groups| :: Utf8.Valid(m.groups[i].name) && Readable(m.groups[i].expr))
    && (forall i | 0 <= i < |m.aggs| :: ReadableAgg(m.aggs[i]))
    && (forall i | 0 <= i < |m.order| :: Utf8.Valid(m.order[i].column))
  }

  predicate ReadableAgg(a: Agg) {
    Utf8.Valid(a.name) && forall i | 0 <= i < |a.args| :: Readable(a.args[i])
  }

  lemma GroupAfter(g: Group)
    requires GroupBytes(g).Some? && Utf8.Valid(g.name) && Readable(g.expr)
    ensures ReadsAs(ReadGroup, GroupBytes(g).value, g)
  {
    forall rest
      ensures ReadGroup(GroupBytes(g).value + rest) == Some((g, rest))
    {
      var h := HintBytes(g.hint) + rest;
      Layout(LenPrefixed(g.name).value, ExprBytes(g.expr).value, HintBytes(g.hint), rest);
      TextAfter(g.name, ExprBytes(g.expr).value + h);
      PrefixCode(g.expr, h);
      HintAfter(g.hint, rest);
    }
  }

  lemma OrderAfter(k: OrderKey)
    requires OrderBytes(k).Some? && Utf8.Valid(k.column)
    ensures ReadsAs(ReadOrder, OrderBytes(k).value, k)
  {
    forall rest
      ensures ReadOrder(OrderBytes(k).value + rest) == Some((k, rest))
    {
      var a, n := Flag(k.ascending), Flag(k.nullsFirst);
      assert OrderBytes(k).value + rest == LenPrefixed(k.column).value + ([a] + ([n] + rest));
      TextAfter(k.column, [a] + ([n] + rest));
      U8After(a, [n] + rest);
      U8After(n, rest);
    }
  }

  lemma ArgsAfter(args: seq<Expr>, rest: seq<byte>)
    requires Section(args, ExprBytes).Some? && forall i | 0 <= i < |args| :: Readable(args[i])
    ensures Counted(ReadExpr, Section(args, ExprBytes).value + rest) == Some((args, rest))
  {
    var parts := All(args, ExprBytes).value;
    forall i | 0 <= i < |args|
      ensures ReadsAs(ReadExpr, parts[i], args[i])
    {
      assert ExprBytes(args[i]) == Some(parts[i]);
      forall tail
        ensures ReadExpr(parts[i] + tail) == Some((args[i], tail))
      {
        PrefixCode(args[i], tail);
      }
    }
    CountedAfter(ReadExpr, args, parts, rest);
  }

  lemma FuncAfter(f: AggFunc, rest: seq<byte>)
    ensures ReadFunc([FuncTag(f)] + rest) == Some((f, rest))
  {
    U8After(FuncTag(f), rest);
  }

  lemma AggAt(a: Agg, rest: seq<byte>)
    requires AggBytes(a).Some? && ReadableAgg(a)
    ensures ReadAggAt(AggBytes(a).value + rest, true) == Some((a, rest))
  {
    var tag, name, args, hint := [FuncTag(a.func)], LenPrefixed(a.name).value, Section(a.args, ExprBytes).value,
      HintBytes(a.hint.value);
    Layout4(tag, name, args, hint, rest);
    FuncAfter(a.func, name + (args + (hint + rest)));
    TextAfter(a.name, args + (hint + rest));
    ArgsAfter(a.args, hint + rest);
    HintAfter(a.hint.value, rest);
  }

  lemma Layout4(a: seq<byte>, b: seq<byte>, c: seq<byte>, d: seq<byte>, rest: seq<byte>)
    ensures a + b + c + d + rest == a + (b + (c + (d + rest)))
  {
  }

  lemma AggAfter(a: Agg)
    requires AggBytes(a).Some? && ReadableAgg(a)
    ensures ReadsAs(ReadAgg(true), AggBytes(a).value, a)
  {
    forall rest
      ensures ReadAgg(true)(AggBytes(a).value + rest) == Some((a, rest))
    {
      AggAt(a, rest);
    }
  }

  // Sections read back.

  lemma NamesAfter(names: seq<Text>, rest: seq<byte>)
    requires Section(names, TextBytes).Some? && forall i | 0 <= i < |names| :: Utf8.Valid(names[i])
    ensures Counted(ReadText, Section(names, TextBytes).value + rest) == Some((names, rest))
  {
    var parts := All(names, TextBytes).value;
    forall i | 0 <= i < |names|
      ensures ReadsAs(ReadText, parts[i], names[i])
    {
      assert TextBytes(names[i]) == Some(parts[i]);
      forall tail
        ensures ReadText(parts[i] + tail) == Some((names[i], tail))
      {
        TextAfter(names[i], tail);
      }
    }
    CountedAfter(ReadText, names, parts, rest);
  }

  lemma GroupsAfter(gs: seq<Group>, rest: seq<byte>)
    requires Section(gs, GroupBytes).Some? && forall i | 0 <= i < |gs| :: Utf8.Valid(gs[i].name) && Readable(gs[i].expr)
    ensures Counted(ReadGroup, Section(gs, GroupBytes).value + rest) == Some((gs, rest))
  {
    var parts := All(gs, GroupBytes).value;
    forall i | 0 <= i < |gs|
      ensures ReadsAs(ReadGroup, parts[i], gs[i])
    {
      assert GroupBytes(gs[i]) == Some(parts[i]);
      GroupAfter(gs[i]);
    }
    CountedAfter(ReadGroup, gs, parts, rest);
  }

  lemma AggsAfter(xs: seq<Agg>, rest: seq<byte>)
    requires Section(xs, AggBytes).Some? && forall i | 0 <= i < |xs| :: ReadableAgg(xs[i])
    ensures Counted(ReadAgg(true), Section(xs, AggBytes).value + rest) == Some((xs, rest))
  {
    var parts := All(xs, AggBytes).value;
    forall i | 0 <= i < |xs|
      ensures ReadsAs(ReadAgg(true), parts[i], xs[i])
    {
      assert AggBytes(xs[i]) == Some(parts[i]);
      AggAfter(xs[i]);
    }
    CountedAfter(ReadAgg(true), xs, parts, rest);
  }

  lemma OrdersAfter(ks: seq<OrderKey>, rest: seq<byte>)
    requires Section(ks, OrderBytes).Some? && forall i | 0 <= i < |ks| :: Utf8.Valid(ks[i].column)
    ensures Counted(ReadOrder, Section(ks, OrderBytes).value + rest) == Some((ks, rest))
  {
    var parts := All(ks, OrderBytes).value;
    forall i | 0 <= i < |ks|
      ensures ReadsAs(ReadOrder, parts[i], ks[i])
    {
      assert OrderBytes(ks[i]) == Some(parts[i]);
      OrderAfter(ks[i]);
    }
    CountedAfter(ReadOrder, ks, parts, rest);
  }

  /** A version-4 message reads back as the same filter, projection, groups, aggregates and order keys. */
  lemma MessageRoundTrip(m: Message)
    requires MessageBytes(m).Some? && ReadableMessage(m)
    ensures ReadMessage(MessageBytes(m).value) == Some(m)
  {
    var o := Section(m.order, OrderBytes).value;
    var a := Section(m.aggs, AggBytes).value + o;
    var g := Section(m.groups, GroupBytes).value + a;
    var p := Section(m.projection, TextBytes).value + g;
    var f := LenPrefixed(m.filter).value + p;
    HeaderAfter(f);
    ReadLenPrefixedAfterWrite(m.filter, p);
    NamesAfter(m.projection, g);
    GroupsAfter(m.groups, a);
    AggsAfter(m.aggs, o);
    assert o + [] == o;
    OrdersAfter(m.order, []);
  }

  lemma HeaderAfter(body: seq<byte>)
    ensures ReadBytes(MAGIC + (LittleEndian(4, 4) + (LittleEndian(0, 4) + body)), 4)
            == Some((MAGIC, LittleEndian(4, 4) + (LittleEndian(0, 4) + body)))
    ensures ReadUnsigned(LittleEndian(4, 4) + (LittleEndian(0, 4) + body), 4) == Some((4, LittleEndian(0, 4) + body))
    ensures ReadUnsigned(LittleEndian(0, 4) + body, 4) == Some((0, body))
  {
    ReadBytesAfterWrite(MAGIC, LittleEndian(4, 4) + (LittleEndian(0, 4) + body));
    CountAfter(4, LittleEndian(0, 4) + body);
    CountAfter(0, body);
  }
}
