/** Which expression trees have a byte form, and how long it is. */
module ExprSize {
  import opened Bytes
  import DecimalText
  import opened ExprIR

  // Lengths, field by field.

  function TextsSize(texts: seq<Text>): nat {
    if texts == [] then 0 else 4 + |texts[0]| + TextsSize(texts[1..])
  }

  function LiteralSize(v: Value): nat {
    match v
    case NullValue => 1
    case BoolValue(_) => 2
    case SignedValue(_) => 9
    case UnsignedValue(_) => 9
    case FloatValue(_) => 5
    case DoubleValue(_) => 9
    case TextValue(t) => 5 + |t|
    case DateValue(_, _) => 5
    case TimestampValue(_, _, _) => 10
    case DecimalValue(_, _, _) => 19
    case OtherValue => 0
  }

  function TypeSize(t: LogicalType): nat {
    if t.Timestamp? then 2 else if t.Decimal? then 3 else 1
  }

  /** A subtree is preceded by its length. */
  function SubSize(n: Node): nat
    decreases n, 1
  {
    4 + Size(n)
  }

  function SubsSize(ns: seq<Node>): nat
    decreases ns
  {
    if ns == [] then 0 else SubSize(ns[0]) + SubsSize(ns[1..])
  }

  function BranchSize(b: Branch): nat
    decreases b
  {
    SubSize(b.when) + SubSize(b.result)
  }

  function BranchesSize(bs: seq<Branch>): nat
    decreases bs
  {
    if bs == [] then 0 else BranchSize(bs[0]) + BranchesSize(bs[1..])
  }

  function Size(n: Node): nat
    decreases n, 0
  {
    match n
    case ColumnRef(path) => 5 + TextsSize(path)
    case Literal(v) => 1 + LiteralSize(v)
    case Cast(to, child) => 1 + TypeSize(to) + SubSize(child)
    case Binary(_, l, r) => 2 + SubSize(l) + SubSize(r)
    case Comparison(_, l, r) => 2 + SubSize(l) + SubSize(r)
    case Conjunction(_, children) => 6 + SubsSize(children)
    case Not(child) => 1 + SubSize(child)
    case Function(name, args) => 9 + |name| + SubsSize(args)
    case Case(branches, otherwise) =>
      6 + BranchesSize(branches) + if otherwise.Some? then SubSize(otherwise.value) else 0
    case IsNull(child) => 1 + SubSize(child)
    case IsNotNull(child) => 1 + SubSize(child)
    case InList(_, child, items) => 6 + SubSize(child) + SubsSize(items)
    case Like(_, escape, child, pattern) =>
      2 + SubSize(child) + SubSize(pattern) + if escape.Some? then 1 else 0
    case Regexp(_, child, pattern, flags) =>
      3 + SubSize(child) + SubSize(pattern) + if flags.Some? then SubSize(flags.value) else 0
  }

  // What can be sent.

  predicate SendableText(t: Text) {
    |t| < U32_LIMIT
  }

  predicate SendableLiteral(v: Value) {
    match v
    case TextValue(t) => SendableText(t)
    case DateValue(_, finite) => finite
    case TimestampValue(_, _, finite) => finite
    case DecimalValue(_, scale, printed) =>
      && scale <= MAX_DECIMAL_SCALE && DecimalText.WellFormed(printed, scale)
      && FitsSigned(DecimalText.UnscaledValue(printed, scale), 16)
    case OtherValue => false
    case _ => true
  }

  predicate SendableType(t: LogicalType) {
    !t.Struct? && !t.OtherType? && (t.Decimal? ==> t.decScale <= MAX_DECIMAL_SCALE)
  }

  /** Finite values of known types, no empty path, conjunction or CASE, known regexp modes, and every count and length
      below 2^32. */
  predicate Sendable(n: Node)
    decreases n, 0
  {
    match n
    case ColumnRef(path) =>
      0 < |path| < U32_LIMIT && [] !in path && forall i | 0 <= i < |path| :: SendableText(path[i])
    case Literal(v) => SendableLiteral(v)
    case Cast(to, child) => SendableType(to) && SendableSub(child)
    case Binary(_, l, r) => SendableSub(l) && SendableSub(r)
    case Comparison(_, l, r) => SendableSub(l) && SendableSub(r)
    case Conjunction(_, children) => 0 < |children| < U32_LIMIT && SendableAll(children)
    case Not(child) => SendableSub(child)
    case Function(name, args) => SendableText(name) && |args| < U32_LIMIT && SendableAll(args)
    case Case(branches, otherwise) =>
      && 0 < |branches| < U32_LIMIT && SendableBranches(branches)
      && (otherwise.Some? ==> SendableSub(otherwise.value))
    case IsNull(child) => SendableSub(child)
    case IsNotNull(child) => SendableSub(child)
    case InList(_, child, items) => SendableSub(child) && |items| < U32_LIMIT && SendableAll(items)
    case Like(_, _, child, pattern) => SendableSub(child) && SendableSub(pattern)
    case Regexp(mode, child, pattern, flags) =>
      && (mode == PARTIAL_MATCH || mode == FULL_MATCH) && SendableSub(child) && SendableSub(pattern)
      && (flags.Some? ==> SendableSub(flags.value))
  }

  predicate SendableSub(n: Node)
    decreases n, 1
  {
    Sendable(n) && Size(n) < U32_LIMIT
  }

  predicate SendableAll(ns: seq<Node>)
    decreases ns
  {
    ns == [] || (SendableSub(ns[0]) && SendableAll(ns[1..]))
  }

  predicate SendableBranch(b: Branch)
    decreases b
  {
    SendableSub(b.when) && SendableSub(b.result)
  }

  predicate SendableBranches(bs: seq<Branch>)
    decreases bs
  {
    bs == [] || (SendableBranch(bs[0]) && SendableBranches(bs[1..]))
  }

  /** The bytes exist exactly when `fits`, and are then that many. */
  predicate Sized(bytes: Option<seq<byte>>, fits: bool, size: nat) {
    (bytes.Some? <==> fits) && (bytes.Some? ==> |bytes.value| == size)
  }

  lemma {:induction false} TextsSized(texts: seq<Text>)
    ensures Sized(EncodeTexts(texts), forall i | 0 <= i < |texts| :: SendableText(texts[i]), TextsSize(texts))
  {
    if texts != [] {
      TextsSized(texts[1..]);
      assert forall i | 0 <= i < |texts| - 1 :: texts[1..][i] == texts[i + 1];
      assert (forall i | 0 <= i < |texts| :: SendableText(texts[i])) ==>
          forall i | 0 <= i < |texts| - 1 :: SendableText(texts[1..][i]);
      assert (forall i | 0 <= i < |texts| - 1 :: SendableText(texts[1..][i])) && SendableText(texts[0]) ==>
          forall i | 0 < i < |texts| :: texts[i] == texts[1..][i - 1] && SendableText(texts[i]);
    }
  }

  lemma LiteralSized(v: Value)
    ensures Sized(EncodeLiteral(v), SendableLiteral(v), LiteralSize(v))
  {
  }

  lemma TypeSized(t: LogicalType)
    ensures Sized(EncodeType(t), SendableType(t), TypeSize(t))
  {
  }

  lemma {:induction false} SubSized(n: Node)
    ensures Sized(EncodeSub(n), SendableSub(n), SubSize(n))
    decreases n, 1
  {
    NodeSized(n);
  }

  lemma {:induction false} SubsSized(ns: seq<Node>)
    ensures Sized(EncodeSubs(ns), SendableAll(ns), SubsSize(ns))
    decreases ns
  {
    if ns != [] {
      SubSized(ns[0]);
      SubsSized(ns[1..]);
    }
  }

  lemma {:induction false} BranchSized(b: Branch)
    ensures Sized(EncodeBranch(b), SendableBranch(b), BranchSize(b))
    decreases b
  {
    SubSized(b.when);
    SubSized(b.result);
  }

  lemma {:induction false} BranchesSized(bs: seq<Branch>)
    ensures Sized(EncodeBranches(bs), SendableBranches(bs), BranchesSize(bs))
    decreases bs
  {
    if bs != [] {
      BranchSized(bs[0]);
      BranchesSized(bs[1..]);
    }
  }

  /** A tree is encoded exactly when it is sendable, and its bytes are as many as its fields take. */
  lemma {:induction false} NodeSized(n: Node)
    ensures Sized(Encode(n), Sendable(n), Size(n))
    decreases n, 0
  {
    match n
    case ColumnRef(path) => TextsSized(path);
    case Literal(v) => LiteralSized(v);
    case Cast(to, child) => TypeSized(to); SubSized(child);
    case Binary(_, l, r) => SubSized(l); SubSized(r);
    case Comparison(_, l, r) => SubSized(l); SubSized(r);
    case Conjunction(_, children) => SubsSized(children);
    case Not(child) => SubSized(child);
    case Function(_, args) => SubsSized(args);
    case Case(branches, otherwise) =>
      BranchesSized(branches);
      if otherwise.Some? {
        SubSized(otherwise.value);
      }
    case IsNull(child) => SubSized(child);
    case IsNotNull(child) => SubSized(child);
    case InList(_, child, items) => SubSized(child); SubsSized(items);
    case Like(_, _, child, pattern) => SubSized(child); SubSized(pattern);
    case Regexp(_, child, pattern, flags) =>
      SubSized(child);
      SubSized(pattern);
      if flags.Some? {
        SubSized(flags.value);
      }
  }
}
