/** Which byte strings the execution-IR parser accepts: up to bytes for true, only what is written. */
module ExecAcceptance {
  import opened Bytes
  import opened ExecIr

  /** `s` begins with the bytes `t`, where a larger byte may stand for a 1, and goes on with `rest`. */
  predicate Writes(s: seq<byte>, t: seq<byte>, rest: seq<byte>) {
    && |s| == |t| + |rest| && s[|t|..] == rest
    && forall i | 0 <= i < |t| :: s[i] == t[i] || (s[i] > 1 && t[i] == 1)
  }

  lemma Exactly(t: seq<byte>, rest: seq<byte>)
    ensures Writes(t + rest, t, rest)
  {
  }

  lemma Chain(s: seq<byte>, t: seq<byte>, mid: seq<byte>, u: seq<byte>, rest: seq<byte>)
    requires Writes(s, t, mid) && Writes(mid, u, rest)
    ensures Writes(s, t + u, rest)
  {
    var n := |t|;
    forall i | n <= i < |s|
      ensures s[i] == mid[i - n]
    {
      assert s[n..][i - n] == s[i];
    }
    assert s[|t + u|..] == mid[|u|..];
  }

  // Fields.

  lemma {:induction false} DigitsOf(s: seq<byte>)
    ensures FromLittleEndian(s) < Pow256(|s|) && LittleEndian(FromLittleEndian(s), |s|) == s
  {
    if s != [] {
      DigitsOf(s[1..]);
      var v := FromLittleEndian(s[1..]);
      assert FromLittleEndian(s) == s[0] + 256 * v;
      assert FromLittleEndian(s) % 256 == s[0] && FromLittleEndian(s) / 256 == v;
      assert [s[0]] + s[1..] == s;
    }
  }

  lemma UnsignedWritten(s: seq<byte>, n: nat)
    requires ReadUnsigned(s, n).Some?
    ensures var (u, rest) := ReadUnsigned(s, n).value; u < Pow256(n) && s == LittleEndian(u, n) + rest
  {
    DigitsOf(s[..n]);
    assert s == s[..n] + s[n..];
  }

  lemma SignedInverse(u: nat, n: nat)
    requires u < Pow256(n)
    ensures FitsSigned(Signed(u, n), n) && Unsigned(Signed(u, n), n) == u
  {
  }

  lemma PrefixedWritten(s: seq<byte>)
    requires ReadLenPrefixed(s).Some?
    ensures var (t, rest) := ReadLenPrefixed(s).value; LenPrefixed(t).Some? && s == LenPrefixed(t).value + rest
  {
    FieldWidths();
    UnsignedWritten(s, 4);
    var (n, body) := ReadUnsigned(s, 4).value;
    var (t, rest) := ReadLenPrefixed(s).value;
    assert body == t + rest;
    assert s == LittleEndian(|t|, 4) + t + rest;
  }

  lemma TextWritten(s: seq<byte>)
    requires ReadText(s).Some?
    ensures var (t, rest) := ReadText(s).value; LenPrefixed(t).Some? && Writes(s, LenPrefixed(t).value, rest)
  {
    PrefixedWritten(s);
  }

  lemma ByteWritten(s: seq<byte>)
    requires ReadU8(s).Some?
    ensures var (b, rest) := ReadU8(s).value; s == [b] + rest && Writes(s, [b], rest)
  {
  }

  lemma FlagWritten(s: seq<byte>)
    requires ReadU8(s).Some?
    ensures var (b, rest) := ReadU8(s).value; Writes(s, [Flag(b != 0)], rest)
  {
  }

  lemma HintWritten(s: seq<byte>)
    requires ReadHint(s).Some?
    ensures var (h, rest) := ReadHint(s).value; Writes(s, HintBytes(h), rest)
  {
    ByteWritten(s);
    var (tag, s1) := ReadU8(s).value;
    if tag == 7 {
      ByteWritten(s1);
      var (p, s2) := ReadU8(s1).value;
      ByteWritten(s2);
      var (sc, s3) := ReadU8(s2).value;
      assert s == [7, p, sc] + s3;
    }
  }

  lemma OpWritten(s: seq<byte>)
    requires ReadOp(s).Some?
    ensures var (op, rest) := ReadOp(s).value; Writes(s, [OpTag(op)], rest)
  {
    ByteWritten(s);
  }

  lemma FuncWritten(s: seq<byte>)
    requires ReadFunc(s).Some?
    ensures var (f, rest) := ReadFunc(s).value; Writes(s, [FuncTag(f)], rest)
  {
    ByteWritten(s);
  }

  lemma DecimalWritten(s: seq<byte>)
    requires ReadDecimal(s).Some?
    ensures var (l, rest) := ReadDecimal(s).value;
            l.DecimalLit? && Writes(s, [l.precision, l.scale] + LittleEndian(Unsigned(l.unscaled, 16), 16), rest)
  {
    ByteWritten(s);
    var (p, s1) := ReadU8(s).value;
    ByteWritten(s1);
    var (sc, s2) := ReadU8(s1).value;
    UnsignedWritten(s2, 16);
    var (u, s3) := ReadUnsigned(s2, 16).value;
    SignedInverse(u, 16);
    assert s == [p, sc] + s2;
    Exactly([p, sc], s2);
    Exactly(LittleEndian(u, 16), s3);
    Chain(s, [p, sc], s2, LittleEndian(u, 16), s3);
  }

  lemma NumberWritten(s: seq<byte>, tag: byte)
    requires ReadU8(s).Some? && ReadU8(s).value.0 == tag && ReadUnsigned(ReadU8(s).value.1, 8).Some?
    ensures var (u, rest) := ReadUnsigned(ReadU8(s).value.1, 8).value;
        u < Pow256(8) && Writes(s, [tag] + LittleEndian(u, 8), rest)
  {
    ByteWritten(s);
    var s1 := ReadU8(s).value.1;
    UnsignedWritten(s1, 8);
    var (u, rest) := ReadUnsigned(s1, 8).value;
    Exactly(LittleEndian(u, 8), rest);
    Chain(s, [tag], s1, LittleEndian(u, 8), rest);
  }

  lemma LitWritten(s: seq<byte>)
    requires ReadLit(s).Some?
    ensures var (l, rest) := ReadLit(s).value; LitBytes(l).Some? && Writes(s, LitBytes(l).value, rest)
  {
    ByteWritten(s);
    var (tag, s1) := ReadU8(s).value;
    match tag
    case 0 =>
    case 1 =>
      NumberWritten(s, 1);
      SignedInverse(ReadUnsigned(s1, 8).value.0, 8);
    case 2 =>
      NumberWritten(s, 2);
      SmallRemainder(ReadUnsigned(s1, 8).value.0, Pow256(8));
    case 3 =>
      FlagWritten(s1);
      var (b, rest) := ReadU8(s1).value;
      Chain(s, [3], s1, [Flag(b != 0)], rest);
      assert [3] + [Flag(b != 0)] == [3, Flag(b != 0)];
    case 4 =>
      TextWritten(s1);
      var (t, rest) := ReadText(s1).value;
      Chain(s, [4], s1, LenPrefixed(t).value, rest);
    case 5 =>
      DecimalWritten(s1);
      var (l, rest) := ReadDecimal(s1).value;
      var digits := LittleEndian(Unsigned(l.unscaled, 16), 16);
      Chain(s, [5], s1, [l.precision, l.scale] + digits, rest);
      assert [5] + ([l.precision, l.scale] + digits) == [5, l.precision, l.scale] + digits;
  }

  /** An expression is read only from its own bytes. */
  lemma {:induction false} ExprWritten(s: seq<byte>)
    requires ReadExpr(s).Some?
    ensures var (e, rest) := ReadExpr(s).value; ExprBytes(e).Some? && Writes(s, ExprBytes(e).value, rest)
    decreases |s|, 1
  {
    ByteWritten(s);
    var (tag, s1) := ReadU8(s).value;
    match tag
    case 1 =>
      TextWritten(s1);
      var (name, rest) := ReadText(s1).value;
      Chain(s, [1], s1, LenPrefixed(name).value, rest);
    case 2 =>
      LitWritten(s1);
      var (lit, rest) := ReadLit(s1).value;
      Chain(s, [2], s1, LitBytes(lit).value, rest);
    case 3 => BinaryWritten(s);
    case 4 => CastWritten(s);
  }

  lemma {:induction false} BinaryWritten(s: seq<byte>)
    requires ReadExpr(s).Some? && s[0] == 3
    ensures var (e, rest) := ReadExpr(s).value; ExprBytes(e).Some? && Writes(s, ExprBytes(e).value, rest)
    decreases |s|, 0
  {
    ByteWritten(s);
    var s1 := s[1..];
    OpWritten(s1);
    var (op, s2) := ReadOp(s1).value;
    ExprWritten(s2);
    var (l, s3) := ReadExpr(s2).value;
    ExprWritten(s3);
    var (r, s4) := ReadExpr(s3).value;
    Chain(s, [3], s1, [OpTag(op)], s2);
    assert [3] + [OpTag(op)] == [3, OpTag(op)];
    Chain(s, [3, OpTag(op)], s2, ExprBytes(l).value, s3);
    Chain(s, [3, OpTag(op)] + ExprBytes(l).value, s3, ExprBytes(r).value, s4);
  }

  lemma {:induction false} CastWritten(s: seq<byte>)
    requires ReadExpr(s).Some? && s[0] == 4
    ensures var (e, rest) := ReadExpr(s).value; ExprBytes(e).Some? && Writes(s, ExprBytes(e).value, rest)
    decreases |s|, 0
  {
    ByteWritten(s);
    var s1 := s[1..];
    HintWritten(s1);
    var (to, s2) := ReadHint(s1).value;
    ExprWritten(s2);
    var (child, s3) := ReadExpr(s2).value;
    Chain(s, [4], s1, HintBytes(to), s2);
    Chain(s, [4] + HintBytes(to), s2, ExprBytes(child).value, s3);
  }

  // Lists.

  /** What `read` reads is what `write` writes. */
  ghost predicate Inverts<T(!new)>(read: Reader<T>, write: T -> Option<seq<byte>>) {
    forall s | read(s).Some? :: write(read(s).value.0).Some? && Writes(s, write(read(s).value.0).value, read(s).value.1)
  }

  lemma {:induction false} ManyWritten<T(!new)>(read: Reader<T>, write: T -> Option<seq<byte>>, s: seq<byte>, n: nat)
    requires Inverts(read, write) && Many(read, s, n).Some?
    ensures var (xs, rest) := Many(read, s, n).value;
            |xs| == n && All(xs, write).Some? && Writes(s, Concat(All(xs, write).value), rest)
    decreases n
  {
    if n != 0 {
      var (x, s1) := read(s).value;
      ManyWritten(read, write, s1, n - 1);
      var (tail, rest) := Many(read, s1, n - 1).value;
      assert ([x] + tail)[1..] == tail;
      var parts := All(tail, write).value;
      assert ([write(x).value] + parts)[1..] == parts;
      Chain(s, write(x).value, s1, Concat(parts), rest);
    }
  }

  lemma CountedWritten<T(!new)>(read: Reader<T>, write: T -> Option<seq<byte>>, s: seq<byte>)
    requires Inverts(read, write) && Counted(read, s).Some?
    ensures var (xs, rest) := Counted(read, s).value;
        Section(xs, write).Some? && Writes(s, Section(xs, write).value, rest)
  {
    FieldWidths();
    UnsignedWritten(s, 4);
    var (n, s1) := ReadUnsigned(s, 4).value;
    ManyWritten(read, write, s1, n);
    var (xs, rest) := Many(read, s1, n).value;
    Exactly(LittleEndian(n, 4), s1);
    Chain(s, LittleEndian(n, 4), s1, Concat(All(xs, write).value), rest);
  }

  lemma TextsInvert()
    ensures Inverts(ReadText, TextBytes)
  {
    forall s | ReadText(s).Some?
      ensures TextBytes(ReadText(s).value.0).Some?
          && Writes(s, TextBytes(ReadText(s).value.0).value, ReadText(s).value.1)
    {
      TextWritten(s);
    }
  }

  lemma ExprsInvert()
    ensures Inverts(ReadExpr, ExprBytes)
  {
    forall s | ReadExpr(s).Some?
      ensures ExprBytes(ReadExpr(s).value.0).Some?
          && Writes(s, ExprBytes(ReadExpr(s).value.0).value, ReadExpr(s).value.1)
    {
      ExprWritten(s);
    }
  }

  lemma GroupWritten(s: seq<byte>)
    requires ReadGroup(s).Some?
    ensures var (g, rest) := ReadGroup(s).value; GroupBytes(g).Some? && Writes(s, GroupBytes(g).value, rest)
  {
    TextWritten(s);
    var (name, s1) := ReadText(s).value;
    ExprWritten(s1);
    var (e, s2) := ReadExpr(s1).value;
    HintWritten(s2);
    var (h, s3) := ReadHint(s2).value;
    Chain(s, LenPrefixed(name).value, s1, ExprBytes(e).value, s2);
    Chain(s, LenPrefixed(name).value + ExprBytes(e).value, s2, HintBytes(h), s3);
  }

  lemma GroupsInvert()
    ensures Inverts(ReadGroup, GroupBytes)
  {
    forall s | ReadGroup(s).Some?
      ensures GroupBytes(ReadGroup(s).value.0).Some?
          && Writes(s, GroupBytes(ReadGroup(s).value.0).value, ReadGroup(s).value.1)
    {
      GroupWritten(s);
    }
  }

  lemma OrderWritten(s: seq<byte>)
    requires ReadOrder(s).Some?
    ensures var (k, rest) := ReadOrder(s).value; OrderBytes(k).Some? && Writes(s, OrderBytes(k).value, rest)
  {
    TextWritten(s);
    var (column, s1) := ReadText(s).value;
    FlagWritten(s1);
    var (a, s2) := ReadU8(s1).value;
    FlagWritten(s2);
    var (n, s3) := ReadU8(s2).value;
    Chain(s1, [Flag(a != 0)], s2, [Flag(n != 0)], s3);
    assert [Flag(a != 0)] + [Flag(n != 0)] == [Flag(a != 0), Flag(n != 0)];
    Chain(s, LenPrefixed(column).value, s1, [Flag(a != 0), Flag(n != 0)], s3);
  }

  lemma OrdersInvert()
    ensures Inverts(ReadOrder, OrderBytes)
  {
    forall s | ReadOrder(s).Some?
      ensures OrderBytes(ReadOrder(s).value.0).Some?
          && Writes(s, OrderBytes(ReadOrder(s).value.0).value, ReadOrder(s).value.1)
    {
      OrderWritten(s);
    }
  }

  lemma AggWritten(s: seq<byte>)
    requires ReadAggAt(s, true).Some?
    ensures var (a, rest) := ReadAggAt(s, true).value; AggBytes(a).Some? && Writes(s, AggBytes(a).value, rest)
  {
    FuncWritten(s);
    var (func, s1) := ReadFunc(s).value;
    TextWritten(s1);
    var (name, s2) := ReadText(s1).value;
    ExprsInvert();
    CountedWritten(ReadExpr, ExprBytes, s2);
    var (args, s3) := Counted(ReadExpr, s2).value;
    HintWritten(s3);
    var (hint, s4) := ReadHint(s3).value;
    var front := [FuncTag(func)] + LenPrefixed(name).value;
    Chain(s, [FuncTag(func)], s1, LenPrefixed(name).value, s2);
    Chain(s, front, s2, Section(args, ExprBytes).value, s3);
    Chain(s, front + Section(args, ExprBytes).value, s3, HintBytes(hint), s4);
  }

  lemma AggsInvert()
    ensures Inverts(ReadAgg(true), AggBytes)
  {
    forall s | ReadAgg(true)(s).Some?
      ensures AggBytes(ReadAgg(true)(s).value.0).Some?
      ensures Writes(s, AggBytes(ReadAgg(true)(s).value.0).value, ReadAgg(true)(s).value.1)
    {
      assert ReadAgg(true)(s) == ReadAggAt(s, true);
      AggWritten(s);
    }
  }

  // Messages.

  function BodyBytes(m: Message): Option<seq<byte>> {
    var filter :- LenPrefixed(m.filter);
    var projection :- Section(m.projection, TextBytes);
    var groups :- Section(m.groups, GroupBytes);
    var aggs :- Section(m.aggs, AggBytes);
    var order :- Section(m.order, OrderBytes);
    Some(filter + projection + groups + aggs + order)
  }

  lemma BodyWritten(s: seq<byte>)
    requires ReadBody(s, 4).Some?
    ensures BodyBytes(ReadBody(s, 4).value).Some? && Writes(s, BodyBytes(ReadBody(s, 4).value).value, [])
  {
    PrefixedWritten(s);
    var (filter, s1) := ReadLenPrefixed(s).value;
    TextsInvert();
    CountedWritten(ReadText, TextBytes, s1);
    var (projection, s2) := Counted(ReadText, s1).value;
    GroupsInvert();
    CountedWritten(ReadGroup, GroupBytes, s2);
    var (groups, s3) := Counted(ReadGroup, s2).value;
    AggsInvert();
    CountedWritten(ReadAgg(true), AggBytes, s3);
    var (aggs, s4) := Counted(ReadAgg(true), s3).value;
    OrdersInvert();
    CountedWritten(ReadOrder, OrderBytes, s4);
    var (order, s5) := Counted(ReadOrder, s4).value;
    Sections(s, LenPrefixed(filter).value, s1, Section(projection, TextBytes).value, s2,
      Section(groups, GroupBytes).value, s3, Section(aggs, AggBytes).value, s4, Section(order, OrderBytes).value, s5);
  }

  lemma Sections(s: seq<byte>, f: seq<byte>, s1: seq<byte>, p: seq<byte>, s2: seq<byte>, g: seq<byte>, s3: seq<byte>,
                 a: seq<byte>, s4: seq<byte>, o: seq<byte>, s5: seq<byte>)
    requires s == f + s1 && Writes(s1, p, s2) && Writes(s2, g, s3) && Writes(s3, a, s4) && Writes(s4, o, s5)
    ensures Writes(s, f + p + g + a + o, s5)
  {
    Exactly(f, s1);
    Chain(s, f, s1, p, s2);
    Chain(s, f + p, s2, g, s3);
    Chain(s, f + p + g, s3, a, s4);
    Chain(s, f + p + g + a, s4, o, s5);
  }

  /** An accepted version-4 message is, apart from its unused flags word, the message that encoding the result would
      write; only bytes read as booleans may differ, when they are larger than 1. */
  lemma AcceptedIsWritten(s: seq<byte>)
    requires ReadMessage(s).Some? && ReadUnsigned(s[4..], 4).value.0 == 4
    ensures var m := ReadMessage(s).value;
            && MessageBytes(m).Some? && BodyBytes(m).Some?
            && MessageBytes(m).value == MAGIC + LittleEndian(4, 4) + LittleEndian(0, 4) + BodyBytes(m).value
            && s[..8] == MAGIC + LittleEndian(4, 4) && |s| >= 12 && Writes(s[12..], BodyBytes(m).value, [])
  {
    var (magic, s1) := ReadBytes(s, 4).value;
    var (version, s2) := ReadUnsigned(s1, 4).value;
    var (flags, s3) := ReadUnsigned(s2, 4).value;
    UnsignedWritten(s1, 4);
    assert s1 == LittleEndian(4, 4) + s2 && s == MAGIC + s1;
    assert s[..8] == MAGIC + LittleEndian(4, 4);
    assert s3 == s[12..];
    BodyWritten(s3);
    SameMessage(ReadBody(s3, 4).value);
  }

  lemma SameMessage(m: Message)
    requires BodyBytes(m).Some?
    ensures MessageBytes(m) == Some(MAGIC + LittleEndian(4, 4) + LittleEndian(0, 4) + BodyBytes(m).value)
  {
    Regroup(MAGIC, LittleEndian(4, 4), LittleEndian(0, 4), LenPrefixed(m.filter).value,
      Section(m.projection, TextBytes).value, Section(m.groups, GroupBytes).value, Section(m.aggs, AggBytes).value,
      Section(m.order, OrderBytes).value);
  }

  lemma Regroup(x: seq<byte>, v: seq<byte>, z: seq<byte>, f: seq<byte>, p: seq<byte>, g: seq<byte>, a: seq<byte>,
      o: seq<byte>)
    ensures x + v + z + (f + p + g + a + o) == x + (v + (z + (f + (p + (g + (a + o))))))
  {
  }
}
