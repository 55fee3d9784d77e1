/** The execution-IR parser as it runs: a cursor that advances and lists filled by loops. */
module ExecReader {
  import opened Bytes
  import Utf8
  import opened ExecIr

  /** A read succeeded exactly when the specification does, with its value and its rest. */
  ghost predicate Took<T(!new)>(spec: Parsed<T>, got: Option<T>, after: seq<byte>) {
    (got.Some? <==> spec.Some?) && (got.Some? ==> (got.value, after) == spec.value)
  }

  /** `xs` in front of the `n` elements still to be read from `s`. */
  ghost function Filled<T(!new)>(read: Reader<T>, xs: seq<T>, s: seq<byte>, n: nat): Parsed<seq<T>>
    decreases n
  {
    if n == 0 then Some((xs, s))
    else if read(s).None? then None
    else Filled(read, xs + [read(s).value.0], read(s).value.1, n - 1)
  }

  lemma {:induction false} FilledFrom<T(!new)>(read: Reader<T>, xs: seq<T>, s: seq<byte>, n: nat)
    ensures var rest := Many(read, s, n);
            Filled(read, xs, s, n) == if rest.None? then None else Some((xs + rest.value.0, rest.value.1))
    decreases n
  {
    if n == 0 {
      assert xs + [] == xs;
    } else if read(s).Some? {
      var (x, s1) := read(s).value;
      FilledFrom(read, xs + [x], s1, n - 1);
      var tail := Many(read, s1, n - 1);
      if tail.Some? {
        assert xs + ([x] + tail.value.0) == xs + [x] + tail.value.0;
      }
    }
  }

  lemma FilledIsMany<T(!new)>(read: Reader<T>, s: seq<byte>, n: nat)
    ensures Many(read, s, n) == Filled(read, [], s, n)
  {
    FilledFrom(read, [], s, n);
    var rest := Many(read, s, n);
    if rest.Some? {
      assert [] + rest.value.0 == rest.value.0;
    }
  }

  ghost predicate SameReader<T(!new)>(read: Reader<T>, spec: Reader<T>) {
    forall s {:trigger spec(s)} :: spec(s) == read(s)
  }

  lemma FilledStep<T(!new)>(read: Reader<T>, xs: seq<T>, s: seq<byte>, n: nat, got: Option<T>, after: seq<byte>)
    requires n > 0 && Took(read(s), got, after)
    ensures Filled(read, xs, s, n) == if got.None? then None else Filled(read, xs + [got.value], after, n - 1)
  {
  }

  method TakePrefixed(c: Cursor) returns (r: Option<seq<byte>>)
    requires c.Valid()
    modifies c
    ensures c.Valid() && Took(ReadLenPrefixed(old(c.Rest())), r, c.Rest())
  {
    var n := c.TakeUnsigned(4);
    if n.None? {
      return None;
    }
    r := c.TakeBytes(n.value);
  }

  method TakeText(c: Cursor) returns (r: Option<Text>)
    requires c.Valid()
    modifies c
    ensures c.Valid() && Took(ReadText(old(c.Rest())), r, c.Rest())
  {
    r := TakePrefixed(c);
    if r.Some? && !Utf8.Valid(r.value) {
      r := None;
    }
  }

  method TakeHint(c: Cursor) returns (r: Option<Hint>)
    requires c.Valid()
    modifies c
    ensures c.Valid() && Took(ReadHint(old(c.Rest())), r, c.Rest())
  {
    var tag := c.TakeU8();
    if tag.None? {
      return None;
    }
    match tag.value
    case 1 => return Some(BoolHint);
    case 2 => return Some(Int64Hint);
    case 3 => return Some(DoubleHint);
    case 4 => return Some(DateHint);
    case 5 => return Some(TimestampHint);
    case 6 => return Some(Utf8Hint);
    case 7 =>
      var p := c.TakeU8();
      if p.None? {
        return None;
      }
      var s := c.TakeU8();
      if s.None? {
        return None;
      }
      return Some(DecimalHint(p.value, s.value));
    case _ => return None;
  }

  method TakeLit(c: Cursor) returns (r: Option<Lit>)
    requires c.Valid()
    modifies c
    ensures c.Valid() && Took(ReadLit(old(c.Rest())), r, c.Rest())
  {
    var tag := c.TakeU8();
    if tag.None? {
      return None;
    }
    match tag.value
    case 0 => return Some(NullLit);
    case 1 =>
      var u := c.TakeUnsigned(8);
      return if u.Some? then Some(IntLit(AsI64(u.value))) else None;
    case 2 =>
      var u := c.TakeUnsigned(8);
      return if u.Some? then Some(DoubleLit(AsU64(u.value))) else None;
    case 3 =>
      var b := c.TakeU8();
      return if b.Some? then Some(BoolLit(b.value != 0)) else None;
    case 4 =>
      var t := TakeText(c);
      return if t.Some? then Some(TextLit(t.value)) else None;
    case 5 => r := TakeDecimal(c);
    case _ => return None;
  }

  method TakeDecimal(c: Cursor) returns (r: Option<Lit>)
    requires c.Valid()
    modifies c
    ensures c.Valid() && Took(ReadDecimal(old(c.Rest())), r, c.Rest())
  {
    var p := c.TakeU8();
    if p.None? {
      return None;
    }
    var s := c.TakeU8();
    if s.None? {
      return None;
    }
    var u := c.TakeUnsigned(16);
    return if u.Some? then Some(DecimalLit(p.value, s.value, AsI128(u.value))) else None;
  }

  method TakeOp(c: Cursor) returns (r: Option<Op>)
    requires c.Valid()
    modifies c
    ensures c.Valid() && Took(ReadOp(old(c.Rest())), r, c.Rest())
  {
    var tag := c.TakeU8();
    if tag.None? {
      return None;
    }
    match tag.value
    case 1 => return Some(Add);
    case 2 => return Some(Sub);
    case 3 => return Some(Mul);
    case 4 => return Some(Div);
    case _ => return None;
  }

  method TakeExpr(c: Cursor) returns (r: Option<Expr>)
    requires c.Valid()
    modifies c
    ensures c.Valid() && Took(ReadExpr(old(c.Rest())), r, c.Rest())
    decreases |c.Rest()|
  {
    var tag := c.TakeU8();
    if tag.None? {
      return None;
    }
    match tag.value
    case 1 =>
      var name := TakeText(c);
      return if name.Some? then Some(Column(name.value)) else None;
    case 2 =>
      var lit := TakeLit(c);
      return if lit.Some? then Some(Literal(lit.value)) else None;
    case 3 =>
      var op := TakeOp(c);
      if op.None? {
        return None;
      }
      var lhs := TakeExpr(c);
      if lhs.None? {
        return None;
      }
      var rhs := TakeExpr(c);
      return if rhs.Some? then Some(Binary(op.value, lhs.value, rhs.value)) else None;
    case 4 =>
      var to := TakeHint(c);
      if to.None? {
        return None;
      }
      var child := TakeExpr(c);
      return if child.Some? then Some(Cast(to.value, child.value)) else None;
    case _ => return None;
  }

  method TakeNames(c: Cursor) returns (r: Option<seq<Text>>)
    requires c.Valid()
    modifies c
    ensures c.Valid() && Took(Counted(ReadText, old(c.Rest())), r, c.Rest())
  {
    var n := c.TakeUnsigned(4);
    if n.None? {
      return None;
    }
    r := FillNames(c, n.value, ReadText);
  }

  method AppendName(c: Cursor, xs: seq<Text>, ghost read: Reader<Text>, ghost left: nat) returns (r: Option<seq<Text>>)
    requires c.Valid() && left > 0 && SameReader(read, ReadText)
    modifies c
    ensures c.Valid()
    ensures Filled(read, xs, old(c.Rest()), left) == if r.None? then None else Filled(read, r.value, c.Rest(), left - 1)
  {
    var x := TakeText(c);
    FilledStep(read, xs, old(c.Rest()), left, x, c.Rest());
    return if x.None? then None else Some(xs + [x.value]);
  }

  method FillNames(c: Cursor, n: nat, ghost read: Reader<Text>) returns (r: Option<seq<Text>>)
    requires c.Valid() && SameReader(read, ReadText)
    modifies c
    ensures c.Valid() && Took(Many(read, old(c.Rest()), n), r, c.Rest())
  {
    FilledIsMany(read, c.Rest(), n);
    ghost var whole := Many(read, c.Rest(), n);
    var xs: seq<Text> := [];
    var left := n;
    while left > 0
      invariant c.Valid() && whole == Filled(read, xs, c.Rest(), left)
    {
      var more := AppendName(c, xs, read, left);
      if more.None? {
        return None;
      }
      xs := more.value;
      left := left - 1;
    }
    return Some(xs);
  }

  method TakeArgs(c: Cursor) returns (r: Option<seq<Expr>>)
    requires c.Valid()
    modifies c
    ensures c.Valid() && Took(Counted(ReadExpr, old(c.Rest())), r, c.Rest())
  {
    var n := c.TakeUnsigned(4);
    if n.None? {
      return None;
    }
    r := FillArgs(c, n.value, ReadExpr);
  }

  method AppendArg(c: Cursor, xs: seq<Expr>, ghost read: Reader<Expr>, ghost left: nat) returns (r: Option<seq<Expr>>)
    requires c.Valid() && left > 0 && SameReader(read, ReadExpr)
    modifies c
    ensures c.Valid()
    ensures Filled(read, xs, old(c.Rest()), left) == if r.None? then None else Filled(read, r.value, c.Rest(), left - 1)
  {
    var x := TakeExpr(c);
    FilledStep(read, xs, old(c.Rest()), left, x, c.Rest());
    return if x.None? then None else Some(xs + [x.value]);
  }

  method FillArgs(c: Cursor, n: nat, ghost read: Reader<Expr>) returns (r: Option<seq<Expr>>)
    requires c.Valid() && SameReader(read, ReadExpr)
    modifies c
    ensures c.Valid() && Took(Many(read, old(c.Rest()), n), r, c.Rest())
  {
    FilledIsMany(read, c.Rest(), n);
    ghost var whole := Many(read, c.Rest(), n);
    var xs: seq<Expr> := [];
    var left := n;
    while left > 0
      invariant c.Valid() && whole == Filled(read, xs, c.Rest(), left)
    {
      var more := AppendArg(c, xs, read, left);
      if more.None? {
        return None;
      }
      xs := more.value;
      left := left - 1;
    }
    return Some(xs);
  }

  method TakeGroup(c: Cursor) returns (r: Option<Group>)
    requires c.Valid()
    modifies c
    ensures c.Valid() && Took(ReadGroup(old(c.Rest())), r, c.Rest())
  {
    var name := TakeText(c);
    if name.None? {
      return None;
    }
    var expr := TakeExpr(c);
    if expr.None? {
      return None;
    }
    var hint := TakeHint(c);
    return if hint.Some? then Some(Group(name.value, expr.value, hint.value)) else None;
  }

  method TakeGroups(c: Cursor) returns (r: Option<seq<Group>>)
    requires c.Valid()
    modifies c
    ensures c.Valid() && Took(Counted(ReadGroup, old(c.Rest())), r, c.Rest())
  {
    var n := c.TakeUnsigned(4);
    if n.None? {
      return None;
    }
    r := FillGroups(c, n.value, ReadGroup);
  }

  method AppendGroup(c: Cursor, xs: seq<Group>, ghost read: Reader<Group>, ghost left: nat)
      returns (r: Option<seq<Group>>)
    requires c.Valid() && left > 0 && SameReader(read, ReadGroup)
    modifies c
    ensures c.Valid()
    ensures Filled(read, xs, old(c.Rest()), left) == if r.None? then None else Filled(read, r.value, c.Rest(), left - 1)
  {
    var x := TakeGroup(c);
    FilledStep(read, xs, old(c.Rest()), left, x, c.Rest());
    return if x.None? then None else Some(xs + [x.value]);
  }

  method FillGroups(c: Cursor, n: nat, ghost read: Reader<Group>) returns (r: Option<seq<Group>>)
    requires c.Valid() && SameReader(read, ReadGroup)
    modifies c
    ensures c.Valid() && Took(Many(read, old(c.Rest()), n), r, c.Rest())
  {
    FilledIsMany(read, c.Rest(), n);
    ghost var whole := Many(read, c.Rest(), n);
    var xs: seq<Group> := [];
    var left := n;
    while left > 0
      invariant c.Valid() && whole == Filled(read, xs, c.Rest(), left)
    {
      var more := AppendGroup(c, xs, read, left);
      if more.None? {
        return None;
      }
      xs := more.value;
      left := left - 1;
    }
    return Some(xs);
  }

  method TakeFunc(c: Cursor) returns (r: Option<AggFunc>)
    requires c.Valid()
    modifies c
    ensures c.Valid() && Took(ReadFunc(old(c.Rest())), r, c.Rest())
  {
    var tag := c.TakeU8();
    if tag.None? {
      return None;
    }
    match tag.value
    case 1 => return Some(Sum);
    case 2 => return Some(Count);
    case 3 => return Some(CountStar);
    case 4 => return Some(Min);
    case 5 => return Some(Max);
    case 6 => return Some(Avg);
    case _ => return None;
  }

  method TakeAgg(c: Cursor, withHint: bool) returns (r: Option<Agg>)
    requires c.Valid()
    modifies c
    ensures c.Valid() && Took(ReadAggAt(old(c.Rest()), withHint), r, c.Rest())
  {
    var func := TakeFunc(c);
    if func.None? {
      return None;
    }
    var name := TakeText(c);
    if name.None? {
      return None;
    }
    var args := TakeArgs(c);
    if args.None? {
      return None;
    }
    if !withHint {
      return Some(Agg(func.value, name.value, args.value, None));
    }
    var hint := TakeHint(c);
    return if hint.Some? then Some(Agg(func.value, name.value, args.value, hint)) else None;
  }

  method TakeAggs(c: Cursor, withHint: bool) returns (r: Option<seq<Agg>>)
    requires c.Valid()
    modifies c
    ensures c.Valid() && Took(Counted(ReadAgg(withHint), old(c.Rest())), r, c.Rest())
  {
    var n := c.TakeUnsigned(4);
    if n.None? {
      return None;
    }
    r := FillAggs(c, n.value, withHint, ReadAgg(withHint));
  }

  method AppendAgg(c: Cursor, xs: seq<Agg>, withHint: bool, ghost read: Reader<Agg>, ghost left: nat)
      returns (r: Option<seq<Agg>>)
    requires c.Valid() && left > 0 && SameReader(read, ReadAgg(withHint))
    modifies c
    ensures c.Valid()
    ensures Filled(read, xs, old(c.Rest()), left) == if r.None? then None else Filled(read, r.value, c.Rest(), left - 1)
  {
    assert ReadAgg(withHint)(c.Rest()) == ReadAggAt(c.Rest(), withHint);
    var x := TakeAgg(c, withHint);
    FilledStep(read, xs, old(c.Rest()), left, x, c.Rest());
    return if x.None? then None else Some(xs + [x.value]);
  }

  method FillAggs(c: Cursor, n: nat, withHint: bool, ghost read: Reader<Agg>) returns (r: Option<seq<Agg>>)
    requires c.Valid() && SameReader(read, ReadAgg(withHint))
    modifies c
    ensures c.Valid() && Took(Many(read, old(c.Rest()), n), r, c.Rest())
  {
    FilledIsMany(read, c.Rest(), n);
    ghost var whole := Many(read, c.Rest(), n);
    var xs: seq<Agg> := [];
    var left := n;
    while left > 0
      invariant c.Valid() && whole == Filled(read, xs, c.Rest(), left)
    {
      var more := AppendAgg(c, xs, withHint, read, left);
      if more.None? {
        return None;
      }
      xs := more.value;
      left := left - 1;
    }
    return Some(xs);
  }

  method TakeOrder(c: Cursor) returns (r: Option<OrderKey>)
    requires c.Valid()
    modifies c
    ensures c.Valid() && Took(ReadOrder(old(c.Rest())), r, c.Rest())
  {
    var column := TakeText(c);
    if column.None? {
      return None;
    }
    var ascending := c.TakeU8();
    if ascending.None? {
      return None;
    }
    var nullsFirst := c.TakeU8();
    return if nullsFirst.Some? then Some(OrderKey(column.value, ascending.value != 0, nullsFirst.value != 0)) else None;
  }

  method TakeOrders(c: Cursor) returns (r: Option<seq<OrderKey>>)
    requires c.Valid()
    modifies c
    ensures c.Valid() && Took(Counted(ReadOrder, old(c.Rest())), r, c.Rest())
  {
    var n := c.TakeUnsigned(4);
    if n.None? {
      return None;
    }
    r := FillOrders(c, n.value, ReadOrder);
  }

  method AppendOrder(c: Cursor, xs: seq<OrderKey>, ghost read: Reader<OrderKey>, ghost left: nat)
      returns (r: Option<seq<OrderKey>>)
    requires c.Valid() && left > 0 && SameReader(read, ReadOrder)
    modifies c
    ensures c.Valid()
    ensures Filled(read, xs, old(c.Rest()), left) == if r.None? then None else Filled(read, r.value, c.Rest(), left - 1)
  {
    var x := TakeOrder(c);
    FilledStep(read, xs, old(c.Rest()), left, x, c.Rest());
    return if x.None? then None else Some(xs + [x.value]);
  }

  method FillOrders(c: Cursor, n: nat, ghost read: Reader<OrderKey>) returns (r: Option<seq<OrderKey>>)
    requires c.Valid() && SameReader(read, ReadOrder)
    modifies c
    ensures c.Valid() && Took(Many(read, old(c.Rest()), n), r, c.Rest())
  {
    FilledIsMany(read, c.Rest(), n);
    ghost var whole := Many(read, c.Rest(), n);
    var xs: seq<OrderKey> := [];
    var left := n;
    while left > 0
      invariant c.Valid() && whole == Filled(read, xs, c.Rest(), left)
    {
      var more := AppendOrder(c, xs, read, left);
      if more.None? {
        return None;
      }
      xs := more.value;
      left := left - 1;
    }
    return Some(xs);
  }

  /** Parses a message of any supported version; trailing bytes are an error. */
  method ParseExecIr(bytes: seq<byte>) returns (r: Option<Message>)
    ensures r == ReadMessage(bytes)
  {
    var c := new Cursor(bytes);
    var magic := c.TakeBytes(4);
    if magic.None? || magic.value != MAGIC {
      return None;
    }
    var version := c.TakeUnsigned(4);
    if version.None? || !(1 <= version.value <= 4) {
      return None;
    }
    var flags := c.TakeUnsigned(4);
    if flags.None? {
      return None;
    }
    r := ParseBody(c, version.value);
  }

  method ParseBody(c: Cursor, version: nat) returns (r: Option<Message>)
    requires c.Valid() && 1 <= version <= 4
    modifies c
    ensures r == ReadBody(old(c.Rest()), version)
  {
    var filter := TakePrefixed(c);
    if filter.None? {
      return None;
    }
    var projection := TakeNames(c);
    if projection.None? {
      return None;
    }
    var groups: Option<seq<Group>> := Some([]);
    if version >= 3 {
      groups := TakeGroups(c);
      if groups.None? {
        return None;
      }
    }
    var aggs := TakeAggs(c, version >= 2);
    if aggs.None? {
      return None;
    }
    var order: Option<seq<OrderKey>> := Some([]);
    if version >= 3 {
      order := TakeOrders(c);
      if order.None? {
        return None;
      }
    }
    var eof := c.AtEnd();
    return if eof then Some(Message(filter.value, projection.value, groups.value, aggs.value, order.value)) else None;
  }
}
