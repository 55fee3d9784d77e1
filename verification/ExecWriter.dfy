/** The encoder of a whole plan: expressions first, then the sections, then the renaming, then the order keys. */
module ExecWriter {
  import opened Bytes
  import opened ExecIr
  import opened ExecPlan
  import opened ExecMessage
  import opened ExecEncoder

  datatype EncodedGroup = EncodedGroup(name: Text, expr: seq<byte>, hint: Hint)
  datatype EncodedAgg = EncodedAgg(func: AggFunc, name: Text, args: seq<byte>, argCount: nat, hint: Hint)

  function GroupPart(g: EncodedGroup): Option<seq<byte>> {
    var name :- LenPrefixed(g.name);
    Some(name + g.expr + HintBytes(g.hint))
  }

  function AggPart(a: EncodedAgg): Option<seq<byte>> {
    var name :- LenPrefixed(a.name);
    Some([FuncTag(a.func)] + name + (LittleEndian(a.argCount, 4) + a.args) + HintBytes(a.hint))
  }

  ghost predicate IsGroup(e: EncodedGroup, g: Group) {
    e.name == g.name && GroupPart(e) == GroupBytes(g)
  }

  ghost predicate IsAgg(e: EncodedAgg, a: Agg) {
    e.name == a.name && AggPart(e) == AggBytes(a)
  }

  ghost predicate AreGroups(es: seq<EncodedGroup>, gs: seq<Group>) {
    |es| == |gs| && forall i | 0 <= i < |es| :: IsGroup(es[i], gs[i])
  }

  ghost predicate AreAggs(es: seq<EncodedAgg>, xs: seq<Agg>) {
    |es| == |xs| && forall i | 0 <= i < |es| :: IsAgg(es[i], xs[i])
  }

  // Groups and aggregates.

  method EncodeGroup(src: Source, g: GroupItem, columns: set<nat>) returns (r: Option<EncodedGroup>, after: set<nat>)
    ensures r.Some? <==> GroupOf(src, g).Some?
    ensures r.Some? ==> IsGroup(r.value, GroupOf(src, g).value) && after == columns + Columns(src, 0, g.expr)
  {
    after := columns;
    if !g.pushable || !SupportedGroup(g.expr) {
      return None, after;
    }
    var tmp := new Output();
    var ok := EncodeExpr(tmp, src, 0, g.expr);
    var hint := HintOf(g.expr.ty);
    if !ok || hint.None? {
      return None, after;
    }
    assert tmp.bytes == ExprBytes(Inline(src, 0, g.expr).value).value;
    return Some(EncodedGroup(g.name, tmp.bytes, hint.value)), columns + tmp.columns;
  }

  lemma {:induction false} GroupsStayNone(p: Plan, i: nat, n: nat)
    requires i <= n <= |p.groups| && GroupsUpTo(p, i).None?
    ensures GroupsUpTo(p, n).None?
    decreases n
  {
    if i < n {
      GroupsStayNone(p, i, n - 1);
    }
  }

  lemma GroupsStep(p: Plan, i: nat, es: seq<EncodedGroup>, e: EncodedGroup)
    requires i < |p.groups| && GroupsUpTo(p, i).Some? && AreGroups(es, GroupsUpTo(p, i).value)
    requires GroupOf(p.src, p.groups[i]).Some? && IsGroup(e, GroupOf(p.src, p.groups[i]).value)
    ensures GroupsUpTo(p, i + 1).Some? && AreGroups(es + [e], GroupsUpTo(p, i + 1).value)
  {
  }

  method EncodeGroups(p: Plan, columns: set<nat>) returns (r: Option<seq<EncodedGroup>>, after: set<nat>)
    ensures r.Some? <==> GroupsUpTo(p, |p.groups|).Some?
    ensures r.Some? ==>
        AreGroups(r.value, GroupsUpTo(p, |p.groups|).value)
        && after == columns + GroupColumns(p, |p.groups|)
  {
    var es: seq<EncodedGroup> := [];
    after := columns;
    for i := 0 to |p.groups|
      invariant GroupsUpTo(p, i).Some? && AreGroups(es, GroupsUpTo(p, i).value) && after == columns + GroupColumns(p, i)
    {
      var e;
      e, after := EncodeGroup(p.src, p.groups[i], after);
      if e.None? {
        GroupsStayNone(p, i + 1, |p.groups|);
        return None, after;
      }
      GroupsStep(p, i, es, e.value);
      es := es + [e.value];
    }
    return Some(es), after;
  }

  lemma OneArgBytes(x: Expr)
    requires ExprBytes(x).Some?
    ensures Section([x], ExprBytes) == Some(LittleEndian(1, 4) + ExprBytes(x).value)
  {
    var part := ExprBytes(x).value;
    assert [x][1..] == [];
    assert All([x], ExprBytes) == Some([part] + []);
    assert [part] + [] == [part];
    assert Concat([part]) == part + Concat([]);
    assert part + [] == part;
  }

  lemma NoArgBytes()
    ensures Section([], ExprBytes) == Some(LittleEndian(0, 4) + [])
  {
    assert All<Expr>([], ExprBytes) == Some([]);
  }

  method EncodeAgg(src: Source, a: AggItem, columns: set<nat>) returns (r: Option<EncodedAgg>, after: set<nat>)
    ensures r.Some? <==> AggOf(src, a).Some?
    ensures r.Some? ==> IsAgg(r.value, AggOf(src, a).value) && after == columns + ArgColumns(src, a.args)
  {
    after := columns;
    var hint := HintOf(a.ty);
    if a.func.None? || hint.None? {
      return None, after;
    }
    if a.func.value.CountStar? {
      if a.args != [] {
        return None, after;
      }
      NoArgBytes();
      return Some(EncodedAgg(CountStar, a.name, [], 0, hint.value)), after;
    }
    if |a.args| != 1 {
      return None, after;
    }
    var tmp := new Output();
    var ok := EncodeExpr(tmp, src, 0, a.args[0]);
    if !ok {
      return None, after;
    }
    assert tmp.bytes == ExprBytes(Inline(src, 0, a.args[0]).value).value;
    OneArgBytes(Inline(src, 0, a.args[0]).value);
    return Some(EncodedAgg(a.func.value, a.name, tmp.bytes, 1, hint.value)), columns + tmp.columns;
  }

  lemma {:induction false} AggsStayNone(p: Plan, i: nat, n: nat)
    requires i <= n <= |p.aggs| && AggsUpTo(p, i).None?
    ensures AggsUpTo(p, n).None?
    decreases n
  {
    if i < n {
      AggsStayNone(p, i, n - 1);
    }
  }

  /** The first `i` aggregates are encoded and their columns noted. */
  ghost predicate AggsDone(p: Plan, i: nat, es: seq<EncodedAgg>, columns: set<nat>, after: set<nat>)
    requires i <= |p.aggs|
  {
    AggsUpTo(p, i).Some? && AreAggs(es, AggsUpTo(p, i).value) && after == columns + AggColumns(p, i)
  }

  lemma AggsStep(p: Plan, i: nat, es: seq<EncodedAgg>, e: EncodedAgg, columns: set<nat>, before: set<nat>)
    requires i < |p.aggs| && AggsDone(p, i, es, columns, before)
    requires AggOf(p.src, p.aggs[i]).Some? && IsAgg(e, AggOf(p.src, p.aggs[i]).value)
    ensures AggsDone(p, i + 1, es + [e], columns, before + ArgColumns(p.src, p.aggs[i].args))
  {
  }

  lemma AggsFail(p: Plan, i: nat)
    requires i < |p.aggs| && AggOf(p.src, p.aggs[i]).None?
    ensures AggsUpTo(p, |p.aggs|).None?
  {
    AggsStayNone(p, i + 1, |p.aggs|);
  }

  method EncodeAggs(p: Plan, columns: set<nat>) returns (r: Option<seq<EncodedAgg>>, after: set<nat>)
    ensures r.Some? <==> AggsUpTo(p, |p.aggs|).Some?
    ensures r.Some? ==> AreAggs(r.value, AggsUpTo(p, |p.aggs|).value) && after == columns + AggColumns(p, |p.aggs|)
  {
    var es: seq<EncodedAgg> := [];
    after := columns;
    for i := 0 to |p.aggs|
      invariant AggsDone(p, i, es, columns, after)
    {
      var e, next := EncodeAgg(p.src, p.aggs[i], after);
      if e.None? {
        AggsFail(p, i);
        return None, after;
      }
      AggsStep(p, i, es, e.value, columns, after);
      es, after := es + [e.value], next;
    }
    return Some(es), after;
  }

  // The scan projection.

  ghost predicate Ascending(s: seq<nat>) {
    forall i, j | 0 <= i < j < |s| :: s[i] < s[j]
  }

  lemma {:induction false} LeastExists(s: set<nat>) returns (m: nat)
    requires s != {}
    ensures m in s && forall k <- s :: m <= k
    decreases s
  {
    var x :| x in s;
    if s == {x} {
      m := x;
    } else {
      var y := LeastExists(s - {x});
      m := if x < y then x else y;
      forall k <- s
        ensures m <= k
      {
        if k != x {
          assert k in s - {x};
        }
      }
    }
  }

  ghost predicate Lists(s: seq<nat>, columns: set<nat>) {
    forall i: nat :: i in columns <==> i in s
  }

  method Sorted(columns: set<nat>) returns (s: seq<nat>)
    ensures Ascending(s) && Lists(s, columns)
  {
    var rest := columns;
    s := [];
    while rest != {}
      invariant Ascending(s) && Lists(s, columns - rest) && rest <= columns
      invariant forall k, j | 0 <= k < |s| && j in rest :: s[k] < j
      decreases rest
    {
      ghost var least := LeastExists(rest);
      var m :| m in rest && forall k <- rest :: m <= k;
      assert Lists(s + [m], columns - (rest - {m}));
      s, rest := s + [m], rest - {m};
    }
    assert columns - {} == columns;
  }

  /** The names at the first `m` of the given positions. */
  function NamesAt(names: seq<Text>, s: seq<nat>, m: nat): seq<Text>
    requires m <= |s| && forall k | 0 <= k < m :: s[k] < |names|
  {
    if m == 0 then [] else NamesAt(names, s, m - 1) + [names[s[m - 1]]]
  }

  /** The first `m` positions are the columns below `n`. */
  ghost predicate Covers(s: seq<nat>, m: nat, columns: set<nat>, n: nat) {
    && m <= |s| && (forall k | 0 <= k < m :: s[k] < n && s[k] in columns)
    && (forall i <- columns :: i < n ==> exists k :: 0 <= k < m && s[k] == i)
  }

  lemma LastIsGreatest(s: seq<nat>, m: nat, columns: set<nat>, n: nat)
    requires n > 0 && Ascending(s) && Covers(s, m, columns, n) && n - 1 in columns
    ensures m > 0 && s[m - 1] == n - 1
  {
    var k :| 0 <= k < m && s[k] == n - 1;
    assert s[k] <= s[m - 1] < n;
  }

  lemma CoversLess(s: seq<nat>, m: nat, columns: set<nat>, n: nat)
    requires n > 0 && m > 0 && Ascending(s) && Covers(s, m, columns, n) && s[m - 1] == n - 1
    ensures Covers(s, m - 1, columns, n - 1)
  {
    forall i <- columns | i < n - 1
      ensures exists k :: 0 <= k < m - 1 && s[k] == i
    {
      var j :| 0 <= j < m && s[j] == i;
      assert j < m - 1 && s[j] == i;
    }
  }

  lemma {:induction false} NamesInOrder(names: seq<Text>, s: seq<nat>, m: nat, columns: set<nat>, n: nat)
    requires n <= |names| && Ascending(s) && Covers(s, m, columns, n)
    ensures NamesAt(names, s, m) == NamesUpTo(names, columns, n)
    decreases n
  {
    if n > 0 {
      if n - 1 in columns {
        LastIsGreatest(s, m, columns, n);
        CoversLess(s, m, columns, n);
        NamesInOrder(names, s, m - 1, columns, n - 1);
      } else {
        assert Covers(s, m, columns, n - 1);
        NamesInOrder(names, s, m, columns, n - 1);
      }
    }
  }

  method ScanProjection(names: seq<Text>, columns: set<nat>) returns (r: Option<seq<Text>>)
    ensures r == ScanNames(names, columns)
  {
    var s := Sorted(columns);
    var projection: seq<Text> := [];
    for i := 0 to |s|
      invariant forall k | 0 <= k < i :: Nameable(names, s[k])
      invariant projection == NamesAt(names, s, i)
    {
      if s[i] >= |names| || names[s[i]] == [] {
        assert s[i] in columns && !Nameable(names, s[i]);
        return None;
      }
      projection := projection + [names[s[i]]];
    }
    NamesInOrder(names, s, |s|, columns, |names|);
    return Some(projection);
  }

  // Sections.

  /** `acc` followed by the elements from `i` on. */
  ghost function Appended<T(!new)>(acc: seq<byte>, xs: seq<T>, i: nat, write: T -> Option<seq<byte>>): Option<seq<byte>>
    requires i <= |xs|
    decreases |xs| - i
  {
    if i == |xs| then Some(acc)
    else if write(xs[i]).None? then None
    else Appended(acc + write(xs[i]).value, xs, i + 1, write)
  }

  lemma {:induction false} AppendedIsConcat<T(!new)>(acc: seq<byte>, xs: seq<T>, i: nat, write: T -> Option<seq<byte>>)
    requires i <= |xs|
    ensures var parts := All(xs[i..], write);
            Appended(acc, xs, i, write) == if parts.None? then None else Some(acc + Concat(parts.value))
    decreases |xs| - i
  {
    if i == |xs| {
      assert acc + [] == acc;
    } else if write(xs[i]).Some? {
      var x := write(xs[i]).value;
      assert xs[i..][1..] == xs[i + 1..];
      AppendedIsConcat(acc + x, xs, i + 1, write);
      var tail := All(xs[i + 1..], write);
      if tail.Some? {
        assert ([x] + tail.value)[1..] == tail.value;
        assert acc + x + Concat(tail.value) == acc + (x + Concat(tail.value));
      }
    }
  }

  lemma AppendedIsSection<T(!new)>(acc: seq<byte>, xs: seq<T>, write: T -> Option<seq<byte>>)
    requires |xs| < U32_LIMIT
    ensures var whole := Section(xs, write);
            Appended(acc + LittleEndian(|xs|, 4), xs, 0, write) == if whole.None? then None else Some(acc + whole.value)
  {
    var count := LittleEndian(|xs|, 4);
    assert xs[0..] == xs;
    AppendedIsConcat(acc + count, xs, 0, write);
    var parts := All(xs, write);
    if parts.Some? {
      assert acc + count + Concat(parts.value) == acc + (count + Concat(parts.value));
    }
  }

  /** A count and the elements, one after the other. */
  method WriteSection<T(!new)>(out: Output, xs: seq<T>, write: T -> Option<seq<byte>>) returns (ok: bool)
    modifies out
    ensures ok <==> Section(xs, write).Some?
    ensures ok ==> out.bytes == old(out.bytes) + Section(xs, write).value
  {
    if |xs| >= U32_LIMIT {
      return false;
    }
    AppendedIsSection(out.bytes, xs, write);
    ghost var whole := Appended(out.bytes + LittleEndian(|xs|, 4), xs, 0, write);
    out.Append(LittleEndian(|xs|, 4));
    for i := 0 to |xs|
      invariant whole == Appended(out.bytes, xs, i, write)
    {
      var part := write(xs[i]);
      if part.None? {
        return false;
      }
      out.Append(part.value);
    }
    return true;
  }

  lemma {:induction false} SameParts<T(!new),
      U(!new)>(xs: seq<T>, f: T -> Option<seq<byte>>, ys: seq<U>, g: U -> Option<seq<byte>>)
    requires |xs| == |ys| && forall i | 0 <= i < |xs| :: f(xs[i]) == g(ys[i])
    ensures Section(xs, f) == Section(ys, g)
  {
    SameAll(xs, f, ys, g);
  }

  lemma {:induction false} SameAll<T(!new),
      U(!new)>(xs: seq<T>, f: T -> Option<seq<byte>>, ys: seq<U>, g: U -> Option<seq<byte>>)
    requires |xs| == |ys| && forall i | 0 <= i < |xs| :: f(xs[i]) == g(ys[i])
    ensures All(xs, f) == All(ys, g)
    decreases |xs|
  {
    if xs != [] {
      SameAll(xs[1..], f, ys[1..], g);
    }
  }

  // Renaming and ordering.

  /** The three places that hold output names agree. */
  ghost predicate Named(groups: seq<EncodedGroup>, aggs: seq<EncodedAgg>, names: seq<Text>) {
    && |names| == |groups| + |aggs|
    && (forall i | 0 <= i < |groups| :: groups[i].name == names[i])
    && (forall i | 0 <= i < |aggs| :: aggs[i].name == names[|groups| + i])
  }

  method BaseColumn(p: Plan, e: Bound) returns (r: Option<nat>)
    ensures r == OutIndex(p, e)
  {
    var base := e;
    while base.CastTo?
      invariant Stripped(base) == Stripped(e)
      decreases base
    {
      base := base.child;
    }
    match base
    case Ref(i, _) => return Some(i);
    case ColumnRef(t, c, _) =>
      return if t == p.groupTable then Some(c) else if t == p.aggTable then Some(|p.groups| + c) else None;
    case _ => return None;
  }

  /** The first `n` output columns carry the names of the projection above. */
  ghost predicate RenamedUpTo(p: Plan, items: seq<PostItem>, names: seq<Text>, n: nat) {
    n <= |items| == |names| && forall i | 0 <= i < n :: RenamesAt(p, items[i], i) && names[i] == items[i].name
  }

  method Rename(p: Plan, groups: seq<EncodedGroup>, aggs: seq<EncodedAgg>, names: seq<Text>)
    returns (ok: bool, groups1: seq<EncodedGroup>, aggs1: seq<EncodedAgg>, names1: seq<Text>)
    requires |groups| == |p.groups| && |aggs| == |p.aggs| && Named(groups, aggs, names) && names == OutputNames(p)
    ensures ok <==> VisibleNames(p).Some?
    ensures ok ==> names1 == VisibleNames(p).value && |groups1| == |groups| && Named(groups1, aggs1, names1)
  {
    groups1, aggs1, names1 := groups, aggs, names;
    if p.post.None? {
      return true, groups1, aggs1, names1;
    }
    var items := p.post.value.items;
    if |items| != |names| {
      return false, groups1, aggs1, names1;
    }
    for i := 0 to |items|
      invariant |groups1| == |groups| && Named(groups1, aggs1, names1) && RenamedUpTo(p, items, names1, i)
    {
      var item := items[i];
      var out := BaseColumn(p, item.expr);
      if !item.plain || out != Some(i) || item.name == [] {
        assert !RenamesAt(p, items[i], i);
        return false, groups1, aggs1, names1;
      }
      names1 := names1[i := item.name];
      if i < |groups1| {
        groups1 := groups1[i := groups1[i].(name := item.name)];
      } else {
        aggs1 := aggs1[i - |groups1| := aggs1[i - |groups1|].(name := item.name)];
      }
    }
    assert names1 == VisibleNames(p).value;
    return true, groups1, aggs1, names1;
  }

  lemma {:induction false} KeysStayNone(p: Plan, names: seq<Text>, i: nat, n: nat)
    requires |names| == p.Width() && i <= n <= |p.order| && KeysUpTo(p, names, i).None?
    ensures KeysUpTo(p, names, n).None?
    decreases n
  {
    if i < n {
      KeysStayNone(p, names, i, n - 1);
    }
  }

  method KeyName(p: Plan, e: Bound, groups: seq<EncodedGroup>, aggs: seq<EncodedAgg>, names: seq<Text>)
      returns (r: Option<Text>)
    requires |groups| == |p.groups| && |aggs| == |p.aggs| && Named(groups, aggs, names)
    ensures r == if KeyIndex(p, e).None? then None else Some(names[KeyIndex(p, e).value])
  {
    match e
    case Ref(i, _) => return if i < |names| then Some(names[i]) else None;
    case ColumnRef(t, c, _) =>
      if t == p.groupTable {
        return if c < |groups| then Some(groups[c].name) else None;
      } else if t == p.aggTable {
        return if c < |aggs| then Some(aggs[c].name) else None;
      } else if p.post.Some? && t == p.post.value.table {
        return if c < |names| then Some(names[c]) else None;
      }
      return None;
    case _ => return None;
  }

  method ResolveOrder(p: Plan, groups: seq<EncodedGroup>, aggs: seq<EncodedAgg>, names: seq<Text>)
    returns (r: Option<seq<OrderKey>>)
    requires |groups| == |p.groups| && |aggs| == |p.aggs| && Named(groups, aggs, names)
    ensures r == KeysUpTo(p, names, |p.order|)
  {
    var keys: seq<OrderKey> := [];
    for i := 0 to |p.order|
      invariant KeysUpTo(p, names, i) == Some(keys)
    {
      var name := KeyName(p, p.order[i].expr, groups, aggs, names);
      if !p.order[i].plain || name.None? {
        KeysStayNone(p, names, i + 1, |p.order|);
        return None;
      }
      keys := keys + [OrderKey(name.value, p.order[i].ascending, p.order[i].nullsFirst)];
    }
    return Some(keys);
  }

  method EncodeOrder(p: Plan, groups: seq<EncodedGroup>, aggs: seq<EncodedAgg>) returns (r: Option<seq<OrderKey>>)
    requires |groups| == |p.groups| && |aggs| == |p.aggs| && Named(groups, aggs, OutputNames(p))
    ensures r == PlanOrder(p)
  {
    var ok, groups1, aggs1, names := Rename(p, groups, aggs, OutputNames(p));
    if !ok {
      return None;
    }
    r := ResolveOrder(p, groups1, aggs1, names);
  }

  // The message.

  lemma EncodedNames(p: Plan, groups: seq<EncodedGroup>, gs: seq<Group>, aggs: seq<EncodedAgg>, xs: seq<Agg>)
    requires NamesKept(p, gs, xs) && AreGroups(groups, gs) && AreAggs(aggs, xs)
    ensures Named(groups, aggs, OutputNames(p))
  {
    forall i | 0 <= i < |groups|
      ensures groups[i].name == OutputNames(p)[i]
    {
      assert IsGroup(groups[i], gs[i]);
    }
    forall i | 0 <= i < |aggs|
      ensures aggs[i].name == OutputNames(p)[|groups| + i]
    {
      assert IsAgg(aggs[i], xs[i]);
    }
  }

  /** The header `acc` and everything else before the order keys. */
  function Front(acc: seq<byte>, filter: seq<byte>, projection: seq<Text>, groups: seq<EncodedGroup>,
      aggs: seq<EncodedAgg>): Option<seq<byte>> {
    var f :- LenPrefixed(filter);
    var p :- Section(projection, TextBytes);
    var g :- Section(groups, GroupPart);
    var a :- Section(aggs, AggPart);
    Some(acc + f + p + g + a)
  }

  method WriteFront(out: Output, filter: seq<byte>, projection: seq<Text>, groups: seq<EncodedGroup>,
      aggs: seq<EncodedAgg>)
    returns (ok: bool)
    modifies out
    ensures ok <==> Front(old(out.bytes), filter, projection, groups, aggs).Some?
    ensures ok ==> out.bytes == Front(old(out.bytes), filter, projection, groups, aggs).value
  {
    ok := out.AppendText(filter);
    if !ok {
      return;
    }
    ok := WriteSection(out, projection, TextBytes);
    if !ok {
      return;
    }
    ok := WriteSection(out, groups, GroupPart);
    if !ok {
      return;
    }
    ok := WriteSection(out, aggs, AggPart);
  }

  lemma Associate7(m: seq<byte>, v: seq<byte>, z: seq<byte>, f: seq<byte>, p: seq<byte>, g: seq<byte>, a: seq<byte>,
      o: seq<byte>)
    ensures m + v + z + f + p + g + a + o == m + (v + (z + (f + (p + (g + (a + o))))))
  {
  }

  lemma FrontAndOrder(m: Message, header: seq<byte>, groups: seq<EncodedGroup>, aggs: seq<EncodedAgg>)
    requires header == MAGIC + LittleEndian(4, 4) + LittleEndian(0, 4) && AreGroups(groups, m.groups)
        && AreAggs(aggs, m.aggs)
    ensures var front, order := Front(header, m.filter, m.projection, groups, aggs), Section(m.order, OrderBytes);
            MessageBytes(m) == if front.None? || order.None? then None else Some(front.value + order.value)
  {
    SameGroups(groups, m.groups);
    SameAggs(aggs, m.aggs);
    if MessageBytes(m).Some? {
      Associate7(MAGIC, LittleEndian(4, 4), LittleEndian(0, 4), LenPrefixed(m.filter).value,
        Section(m.projection, TextBytes).value, Section(m.groups, GroupBytes).value, Section(m.aggs, AggBytes).value,
        Section(m.order, OrderBytes).value);
    }
  }

  lemma SameGroups(groups: seq<EncodedGroup>, gs: seq<Group>)
    requires AreGroups(groups, gs)
    ensures Section(groups, GroupPart) == Section(gs, GroupBytes)
  {
    SameParts(groups, GroupPart, gs, GroupBytes);
  }

  lemma SameAggs(aggs: seq<EncodedAgg>, xs: seq<Agg>)
    requires AreAggs(aggs, xs)
    ensures Section(aggs, AggPart) == Section(xs, AggBytes)
  {
    SameParts(aggs, AggPart, xs, AggBytes);
  }

  /** The bytes of the plan's message; groups and aggregates are written before the renaming. */
  method Encode(p: Plan) returns (r: Option<seq<byte>>)
    ensures r == PlanBytes(p)
  {
    var columns := set i | i in p.extra;
    var groups, withGroups := EncodeGroups(p, columns);
    if groups.None? {
      return None;
    }
    var aggs, withAggs := EncodeAggs(p, withGroups);
    if aggs.None? {
      return None;
    }
    var projection := ScanProjection(p.src.scan.names, withAggs);
    if projection.None? {
      return None;
    }
    ghost var gs, xs := GroupsUpTo(p, |p.groups|).value, AggsUpTo(p, |p.aggs|).value;
    MessageKeepsNames(p, gs, xs);
    var out := new Output();
    out.Append(MAGIC + LittleEndian(4, 4) + LittleEndian(0, 4));
    assert out.bytes == MAGIC + LittleEndian(4, 4) + LittleEndian(0, 4);
    if PlanOrder(p).Some? {
      FrontAndOrder(Message(p.filter, projection.value, gs, xs, PlanOrder(p).value), out.bytes, groups.value,
        aggs.value);
    }
    EncodedNames(p, groups.value, gs, aggs.value, xs);
    r := EncodeSections(out, p, projection.value, groups.value, aggs.value);
  }

  method EncodeSections(out: Output, p: Plan, projection: seq<Text>, groups: seq<EncodedGroup>, aggs: seq<EncodedAgg>)
    returns (r: Option<seq<byte>>)
    requires |groups| == |p.groups| && |aggs| == |p.aggs| && Named(groups, aggs, OutputNames(p))
    modifies out
    ensures var front, order := Front(old(out.bytes), p.filter, projection, groups, aggs), PlanOrder(p);
            if front.None? || order.None? || Section(order.value, OrderBytes).None? then r.None?
            else r == Some(front.value + Section(order.value, OrderBytes).value)
  {
    var ok := WriteFront(out, p.filter, projection, groups, aggs);
    if !ok {
      return None;
    }
    var order := EncodeOrder(p, groups, aggs);
    if order.None? {
      return None;
    }
    ok := WriteSection(out, order.value, OrderBytes);
    return if ok then Some(out.bytes) else None;
  }
}
