/** The version-4 message that a plan of scan, projections, aggregate, rename and ordering becomes. */
module ExecMessage {
  import opened Bytes
  import opened ExecIr
  import opened ExecPlan

  datatype GroupItem = GroupItem(expr: Bound, name: Text, pushable: bool)

  /** `func` is none for an aggregate that is not supported, or is DISTINCT, filtered or ordered. */
  datatype AggItem = AggItem(func: Option<AggFunc>, name: Text, args: seq<Bound>, ty: Type)

  /** `plain`: no parameter, not volatile, cannot throw. */
  datatype PostItem = PostItem(expr: Bound, name: Text, plain: bool)
  datatype SortItem = SortItem(expr: Bound, plain: bool, ascending: bool, nullsFirst: bool)
  datatype Post = Post(table: nat, items: seq<PostItem>)

  datatype Plan = Plan(src: Source, filter: seq<byte>, extra: seq<nat>, groups: seq<GroupItem>, aggs: seq<AggItem>,
                       groupTable: nat, aggTable: nat, post: Option<Post>, order: seq<SortItem>)
  {
    function Width(): nat {
      |groups| + |aggs|
    }
  }

  function Inlined(src: Source, e: Bound): Option<Expr> {
    var x :- Inline(src, 0, e);
    if ExprBytes(x).Some? then Some(x) else None
  }

  /** A column, possibly under casts. */
  predicate SupportedGroup(e: Bound) {
    e.Ref? || e.ColumnRef? || (e.CastTo? && SupportedGroup(e.child))
  }

  function GroupOf(src: Source, g: GroupItem): Option<Group> {
    if !g.pushable || !SupportedGroup(g.expr) then None
    else
      var x :- Inlined(src, g.expr);
      var hint :- HintOf(g.expr.ty);
      Some(Group(g.name, x, hint))
  }

  function AggOf(src: Source, a: AggItem): Option<Agg> {
    var func :- a.func;
    var hint :- HintOf(a.ty);
    if func.CountStar? then (if a.args == [] then Some(Agg(func, a.name, [], Some(hint))) else None)
    else if |a.args| != 1 then None
    else
      var x :- Inlined(src, a.args[0]);
      Some(Agg(func, a.name, [x], Some(hint)))
  }

  function GroupsUpTo(p: Plan, n: nat): (r: Option<seq<Group>>)
    requires n <= |p.groups|
    ensures r.Some? ==> |r.value| == n && forall i | 0 <= i < n :: GroupOf(p.src, p.groups[i]) == Some(r.value[i])
  {
    if n == 0 then Some([])
    else
      var rest :- GroupsUpTo(p, n - 1);
      var g :- GroupOf(p.src, p.groups[n - 1]);
      Some(rest + [g])
  }

  function AggsUpTo(p: Plan, n: nat): (r: Option<seq<Agg>>)
    requires n <= |p.aggs|
    ensures r.Some? ==> |r.value| == n && forall i | 0 <= i < n :: AggOf(p.src, p.aggs[i]) == Some(r.value[i])
  {
    if n == 0 then Some([])
    else
      var rest :- AggsUpTo(p, n - 1);
      var a :- AggOf(p.src, p.aggs[n - 1]);
      Some(rest + [a])
  }

  function GroupColumns(p: Plan, n: nat): set<nat>
    requires n <= |p.groups|
  {
    if n == 0 then {} else GroupColumns(p, n - 1) + Columns(p.src, 0, p.groups[n - 1].expr)
  }

  function ArgColumns(src: Source, args: seq<Bound>): set<nat> {
    if |args| == 1 then Columns(src, 0, args[0]) else {}
  }

  function AggColumns(p: Plan, n: nat): set<nat>
    requires n <= |p.aggs|
  {
    if n == 0 then {} else AggColumns(p, n - 1) + ArgColumns(p.src, p.aggs[n - 1].args)
  }

  function PlanColumns(p: Plan): set<nat> {
    (set i | i in p.extra) + GroupColumns(p, |p.groups|) + AggColumns(p, |p.aggs|)
  }

  /** The names of the chosen columns, in table order. */
  function NamesUpTo(names: seq<Text>, columns: set<nat>, n: nat): seq<Text>
    requires n <= |names|
  {
    if n == 0 then [] else NamesUpTo(names, columns, n - 1) + (if n - 1 in columns then [names[n - 1]] else [])
  }

  predicate Nameable(names: seq<Text>, i: nat) {
    i < |names| && names[i] != []
  }

  function ScanNames(names: seq<Text>, columns: set<nat>): Option<seq<Text>> {
    if forall i <- columns :: Nameable(names, i) then Some(NamesUpTo(names, columns, |names|)) else None
  }

  /** The output columns as the aggregate names them: groups, then aggregates. */
  function OutputNames(p: Plan): (names: seq<Text>)
    ensures |names| == p.Width()
  {
    seq(p.Width(), i requires 0 <= i < p.Width() => if i < |p.groups| then p.groups[i].name
      else p.aggs[i - |p.groups|].name)
  }

  function Stripped(e: Bound): (r: Bound)
    ensures !r.CastTo?
  {
    if e.CastTo? then Stripped(e.child) else e
  }

  /** The output column a renaming expression refers to. */
  function OutIndex(p: Plan, e: Bound): Option<nat> {
    match Stripped(e)
    case Ref(i, _) => Some(i)
    case ColumnRef(t, c, _) => if t == p.groupTable then Some(c) else if t == p.aggTable then Some(|p.groups| + c)
      else None
    case _ => None
  }

  predicate RenamesAt(p: Plan, item: PostItem, i: nat) {
    item.plain && OutIndex(p, item.expr) == Some(i) && item.name != []
  }

  /** The names after the projection above the aggregate, which may only rename each column in place. */
  function VisibleNames(p: Plan): (r: Option<seq<Text>>)
    ensures r.Some? ==> |r.value| == p.Width()
  {
    if p.post.None? then Some(OutputNames(p))
    else
      var items := p.post.value.items;
      if |items| == p.Width() && forall i | 0 <= i < |items| :: RenamesAt(p, items[i], i)
      then Some(seq(|items|, i requires 0 <= i < |items| => items[i].name)) else None
  }

  /** The output column an ordering expression refers to. */
  function KeyIndex(p: Plan, e: Bound): (r: Option<nat>)
    ensures r.Some? ==> r.value < p.Width()
  {
    match e
    case Ref(i, _) => if i < p.Width() then Some(i) else None
    case ColumnRef(t, c, _) =>
      if t == p.groupTable then (if c < |p.groups| then Some(c) else None)
      else if t == p.aggTable then (if c < |p.aggs| then Some(|p.groups| + c) else None)
      else if p.post.Some? && t == p.post.value.table then (if c < p.Width() then Some(c) else None)
      else None
    case _ => None
  }

  function KeyOf(p: Plan, names: seq<Text>, item: SortItem): Option<OrderKey>
    requires |names| == p.Width()
  {
    var i :- KeyIndex(p, item.expr);
    if item.plain then Some(OrderKey(names[i], item.ascending, item.nullsFirst)) else None
  }

  function KeysUpTo(p: Plan, names: seq<Text>, n: nat): (r: Option<seq<OrderKey>>)
    requires |names| == p.Width() && n <= |p.order|
    ensures r.Some? ==> |r.value| == n && forall i | 0 <= i < n :: KeyOf(p, names, p.order[i]) == Some(r.value[i])
  {
    if n == 0 then Some([])
    else
      var rest :- KeysUpTo(p, names, n - 1);
      var k :- KeyOf(p, names, p.order[n - 1]);
      Some(rest + [k])
  }

  /** The order keys, under the names the projection above the aggregate leaves. */
  function PlanOrder(p: Plan): (r: Option<seq<OrderKey>>)
    ensures r.Some? ==> |r.value| == |p.order|
  {
    var names :- VisibleNames(p);
    KeysUpTo(p, names, |p.order|)
  }

  /** The message of a plan; none when the plan is not pushed down. */
  function PlanMessage(p: Plan): (r: Option<Message>)
    ensures r.Some? ==> |r.value.groups| == |p.groups| && |r.value.aggs| == |p.aggs| && |r.value.order| == |p.order|
  {
    var groups :- GroupsUpTo(p, |p.groups|);
    var aggs :- AggsUpTo(p, |p.aggs|);
    var projection :- ScanNames(p.src.scan.names, PlanColumns(p));
    var order :- PlanOrder(p);
    Some(Message(p.filter, projection, groups, aggs, order))
  }

  function PlanBytes(p: Plan): Option<seq<byte>> {
    var m :- PlanMessage(p);
    MessageBytes(m)
  }

  // The scan delivers every column that is read.

  lemma {:induction false} NamedUpTo(names: seq<Text>, columns: set<nat>, i: nat, n: nat)
    requires i < n <= |names| && i in columns
    ensures names[i] in NamesUpTo(names, columns, n)
    decreases n
  {
    if i < n - 1 {
      NamedUpTo(names, columns, i, n - 1);
    }
  }

  lemma {:induction false} GroupColumnsIn(p: Plan, i: nat, n: nat)
    requires i < n <= |p.groups|
    ensures Columns(p.src, 0, p.groups[i].expr) <= GroupColumns(p, n)
    decreases n
  {
    if i < n - 1 {
      GroupColumnsIn(p, i, n - 1);
    }
  }

  lemma {:induction false} AggColumnsIn(p: Plan, i: nat, n: nat)
    requires i < n <= |p.aggs|
    ensures ArgColumns(p.src, p.aggs[i].args) <= AggColumns(p, n)
    decreases n
  {
    if i < n - 1 {
      AggColumnsIn(p, i, n - 1);
    }
  }

  lemma ExprIsClosed(p: Plan, projection: seq<Text>, e: Bound)
    requires ScanNames(p.src.scan.names, PlanColumns(p)) == Some(projection)
    requires Inline(p.src, 0, e).Some? && Columns(p.src, 0, e) <= PlanColumns(p)
    ensures forall name <- NamesIn(Inline(p.src, 0, e).value) :: name in projection
  {
    var names := p.src.scan.names;
    InlineIsClosed(p.src, 0, e);
    forall name <- NamesIn(Inline(p.src, 0, e).value)
      ensures name in projection
    {
      var i :| i in Columns(p.src, 0, e) && i < |names| && names[i] == name;
      NamedUpTo(names, PlanColumns(p), i, |names|);
    }
  }

  /** Every column that a group or an aggregate names is projected by the scan. */
  lemma PlanIsClosed(p: Plan)
    requires PlanMessage(p).Some?
    ensures var m := PlanMessage(p).value;
            && (forall i, name | 0 <= i < |m.groups| && name in NamesIn(m.groups[i].expr) :: name in m.projection)
            && (forall i, k, name | 0 <= i < |m.aggs| && 0 <= k < |m.aggs[i].args|
              && name in NamesIn(m.aggs[i].args[k]) ::
                  name in m.projection)
  {
    var m := PlanMessage(p).value;
    forall i, name | 0 <= i < |m.groups| && name in NamesIn(m.groups[i].expr)
      ensures name in m.projection
    {
      GroupColumnsIn(p, i, |p.groups|);
      assert GroupOf(p.src, p.groups[i]) == Some(m.groups[i]);
      ExprIsClosed(p, m.projection, p.groups[i].expr);
    }
    forall i, k, name | 0 <= i < |m.aggs| && 0 <= k < |m.aggs[i].args| && name in NamesIn(m.aggs[i].args[k])
      ensures name in m.projection
    {
      AggColumnsIn(p, i, |p.aggs|);
      assert AggOf(p.src, p.aggs[i]) == Some(m.aggs[i]);
      ExprIsClosed(p, m.projection, p.aggs[i].args[0]);
    }
  }

  /** The scan projects nothing twice, and nothing but the table's columns. */
  lemma {:induction false} NamesAreDistinct(names: seq<Text>, columns: set<nat>, n: nat)
    requires n <= |names| && forall i, j | 0 <= i < j < |names| :: names[i] != names[j]
    ensures var r := NamesUpTo(names, columns, n);
            (forall name <- r :: name in names[..n]) && forall i, j | 0 <= i < j < |r| :: r[i] != r[j]
  {
    if n > 0 {
      NamesAreDistinct(names, columns, n - 1);
      assert names[..n] == names[..n - 1] + [names[n - 1]];
      assert names[n - 1] !in names[..n - 1];
    }
  }

  // Order keys against the names the message gives its output columns.

  /** The name under which output column `i` is written. */
  function WrittenName(groups: seq<Group>, aggs: seq<Agg>, i: nat): Text
    requires i < |groups| + |aggs|
  {
    if i < |groups| then groups[i].name else aggs[i - |groups|].name
  }

  ghost predicate NamesKept(p: Plan, groups: seq<Group>, aggs: seq<Agg>) {
    && |groups| == |p.groups| && |aggs| == |p.aggs|
    && (forall i | 0 <= i < |groups| :: groups[i].name == p.groups[i].name)
    && (forall i | 0 <= i < |aggs| :: aggs[i].name == p.aggs[i].name)
  }

  lemma MessageKeepsNames(p: Plan, groups: seq<Group>, aggs: seq<Agg>)
    requires GroupsUpTo(p, |p.groups|) == Some(groups) && AggsUpTo(p, |p.aggs|) == Some(aggs)
    ensures NamesKept(p, groups, aggs)
  {
    forall i | 0 <= i < |groups|
      ensures groups[i].name == p.groups[i].name
    {
      assert GroupOf(p.src, p.groups[i]) == Some(groups[i]);
    }
    forall i | 0 <= i < |aggs|
      ensures aggs[i].name == p.aggs[i].name
    {
      assert AggOf(p.src, p.aggs[i]) == Some(aggs[i]);
    }
  }

  lemma WrittenIsOutput(p: Plan, groups: seq<Group>, aggs: seq<Agg>, i: nat)
    requires NamesKept(p, groups, aggs) && i < p.Width()
    ensures WrittenName(groups, aggs, i) == OutputNames(p)[i]
  {
  }

  /** An order key names the output column it sorts by exactly when the projection above leaves that column's
      name alone. */
  lemma OrderKeyResolves(p: Plan, k: nat)
    requires PlanMessage(p).Some? && k < |p.order|
    ensures KeyIndex(p, p.order[k].expr).Some?
    ensures var m, i := PlanMessage(p).value, KeyIndex(p, p.order[k].expr).value;
            m.order[k].column == WrittenName(m.groups, m.aggs, i)
            <==> (p.post.None? || p.post.value.items[i].name == OutputNames(p)[i])
  {
    var m, names := PlanMessage(p).value, VisibleNames(p).value;
    assert KeyOf(p, names, p.order[k]) == Some(m.order[k]);
    MessageKeepsNames(p, m.groups, m.aggs);
    WrittenIsOutput(p, m.groups, m.aggs, KeyIndex(p, p.order[k].expr).value);
  }

  /** An order key names written column `j` exactly when the projection above gives the column it sorts by that name. */
  lemma OrderKeyNames(p: Plan, k: nat, j: nat)
    requires PlanMessage(p).Some? && k < |p.order| && j < p.Width()
    ensures KeyIndex(p, p.order[k].expr).Some? && VisibleNames(p).Some?
    ensures var m, i := PlanMessage(p).value, KeyIndex(p, p.order[k].expr).value;
            m.order[k].column == WrittenName(m.groups, m.aggs, j) <==> VisibleNames(p).value[i] == OutputNames(p)[j]
  {
    var m, names := PlanMessage(p).value, VisibleNames(p).value;
    assert KeyOf(p, names, p.order[k]) == Some(m.order[k]);
    MessageKeepsNames(p, m.groups, m.aggs);
    WrittenIsOutput(p, m.groups, m.aggs, j);
  }

  /** One count, renamed above the aggregate and ordered by. */
  function RenamedCount(): Plan {
    Plan(Source(Scan(0, [], []), [], [], (v: Value, t: Type) => None), [], [], [],
         [AggItem(Some(CountStar), [97], [], BigInt)], 1, 2,
         Some(Post(3, [PostItem(ColumnRef(2, 0, BigInt), [98], true)])), [SortItem(Ref(0, BigInt), true, true, false)])
  }

  /** The count is written as `a` and ordered by as `b`, which no output column is called. */
  lemma RenamedKeyDangles()
    ensures PlanMessage(RenamedCount()).Some?
    ensures var m := PlanMessage(RenamedCount()).value;
            m.order == [OrderKey([98], true, false)] && |m.groups| == 0 && |m.aggs| == 1 && m.aggs[0].name == [97]
  {
    var p := RenamedCount();
    assert AggOf(p.src, p.aggs[0]).Some?;
    assert AggsUpTo(p, 1).Some?;
    assert GroupsUpTo(p, 0).Some?;
    assert PlanColumns(p) == {} by {
      assert AggColumns(p, 1) == {};
    }
    assert RenamesAt(p, p.post.value.items[0], 0);
    assert VisibleNames(p).Some? && VisibleNames(p).value[0] == [98];
    assert VisibleNames(p).value == [[98]];
    assert KeyOf(p, [[98]], p.order[0]) == Some(OrderKey([98], true, false));
    assert KeysUpTo(p, [[98]], 1).Some?;
  }

  /** Two counts, renamed into each other's names; the first is ordered by. */
  function SwappedCounts(): Plan {
    Plan(Source(Scan(0, [], []), [], [], (v: Value, t: Type) => None), [], [], [],
         [AggItem(Some(CountStar), [97], [], BigInt), AggItem(Some(CountStar), [98], [], BigInt)], 1, 2,
         Some(Post(3, [PostItem(ColumnRef(2, 0, BigInt), [98], true), PostItem(ColumnRef(2, 1, BigInt), [97], true)])),
         [SortItem(Ref(0, BigInt), true, true, false)])
  }

  /** The key sorts by column 0 and names column 1, without any error. */
  lemma SwappedKeyNamesOther()
    ensures PlanMessage(SwappedCounts()).Some? && KeyIndex(SwappedCounts(), SwappedCounts().order[0].expr) == Some(0)
    ensures var m := PlanMessage(SwappedCounts()).value; m.order[0].column == WrittenName(m.groups, m.aggs, 1)
  {
    var p := SwappedCounts();
    assert AggOf(p.src, p.aggs[0]).Some? && AggOf(p.src, p.aggs[1]).Some?;
    assert AggsUpTo(p, 1).Some? && AggsUpTo(p, 2).Some?;
    assert GroupsUpTo(p, 0).Some?;
    assert AggColumns(p, 1) == {};
    assert AggColumns(p, 2) == {};
    assert PlanColumns(p) == {};
    assert RenamesAt(p, p.post.value.items[0], 0) && RenamesAt(p, p.post.value.items[1], 1);
    var names := VisibleNames(p).value;
    assert names[0] == [98];
    assert KeyOf(p, names, p.order[0]) == Some(OrderKey([98], true, false));
    assert KeysUpTo(p, names, 1).Some?;
    OrderKeyNames(p, 0, 1);
  }

  /** The bytes of a plan read back as its message. */
  lemma PlanRoundTrip(p: Plan)
    requires PlanBytes(p).Some? && ReadableMessage(PlanMessage(p).value)
    ensures ReadMessage(PlanBytes(p).value) == PlanMessage(p)
  {
    MessageRoundTrip(PlanMessage(p).value);
  }

  // What the parsed message computes.

  /** Every group and aggregate argument is bound to the plan's projections, and its recast constants are exact. */
  ghost predicate ExactPlan<D(!new)>(en: Engine<D>, p: Plan) {
    && WellFormed(p.src)
    && (forall g <- p.groups :: WellBound(p.src, 0, g.expr) && Exact(en, p.src, 0, g.expr))
    && (forall a <- p.aggs :: forall e <- a.args :: WellBound(p.src, 0, e) && Exact(en, p.src, 0, e))
  }

  lemma GroupMeaning<D(!new)>(en: Engine<D>, p: Plan, row: nat -> D, named: Text -> D, groups: seq<Group>, i: nat)
    requires Comparable(en, p.src, row, named) && ExactPlan(en, p)
    requires GroupsUpTo(p, |p.groups|) == Some(groups) && i < |groups|
    ensures EvalIr(en, named, groups[i].expr) == Eval(en, p.src, row, 0, p.groups[i].expr)
  {
    assert GroupOf(p.src, p.groups[i]) == Some(groups[i]) && p.groups[i] in p.groups;
    InlineMeaning(en, p.src, row, named, 0, p.groups[i].expr);
  }

  lemma ArgMeaning<D(!new)>(en: Engine<D>, p: Plan, row: nat -> D, named: Text -> D, aggs: seq<Agg>, i: nat)
    requires Comparable(en, p.src, row, named) && ExactPlan(en, p)
    requires AggsUpTo(p, |p.aggs|) == Some(aggs) && i < |aggs|
    ensures |aggs[i].args| == |p.aggs[i].args| <= 1
    ensures |aggs[i].args| == 1 ==> EvalIr(en, named, aggs[i].args[0]) == Eval(en, p.src, row, 0, p.aggs[i].args[0])
  {
    assert AggOf(p.src, p.aggs[i]) == Some(aggs[i]) && p.aggs[i] in p.aggs;
    if |aggs[i].args| == 1 {
      assert p.aggs[i].args[0] in p.aggs[i].args;
      InlineMeaning(en, p.src, row, named, 0, p.aggs[i].args[0]);
    }
  }

  // What the message says, in the plan's own terms.

  function TypeMeant(h: Hint): Type {
    match h
    case BoolHint => Boolean
    case Int64Hint => BigInt
    case DoubleHint => Double
    case DateHint => Date
    case TimestampHint => Timestamp
    case Utf8Hint => Varchar
    case DecimalHint(w, s) => Decimal(w, s)
  }

  predicate GroupAsPlanned(g: Group, item: GroupItem) {
    g.name == item.name && TypeMeant(g.hint) == item.expr.ty
  }

  predicate AggAsPlanned(a: Agg, item: AggItem) {
    item.func == Some(a.func) && a.name == item.name && a.hint.Some? && TypeMeant(a.hint.value) == item.ty
  }

  /** The expression stands for output column `i`: by position, or as a column of the groups, the aggregates or the
      projection above them. */
  predicate StandsFor(p: Plan, e: Bound, i: nat) {
    || (e.Ref? && e.index == i)
    || (e.ColumnRef? && e.table == p.groupTable && e.column == i && i < |p.groups|)
    || (e.ColumnRef? && e.table == p.aggTable && e.table != p.groupTable && |p.groups| + e.column == i)
    || (&& e.ColumnRef? && p.post.Some? && e.table == p.post.value.table
        && e.table != p.groupTable && e.table != p.aggTable && e.column == i)
  }

  /** What the rest of the query calls output column `i`. */
  predicate Called(p: Plan, i: nat, name: Text) {
    if p.post.Some? then i < |p.post.value.items| && p.post.value.items[i].name == name
    else if i < |p.groups| then p.groups[i].name == name
    else i < p.Width() && p.aggs[i - |p.groups|].name == name
  }

  ghost predicate KeyAsPlanned(p: Plan, k: OrderKey, item: SortItem) {
    && k.ascending == item.ascending && k.nullsFirst == item.nullsFirst
    && exists i: nat :: i < p.Width() && StandsFor(p, item.expr, i) && Called(p, i, k.column)
  }

  /** The table columns that the scan must deliver. */
  ghost predicate Needed(p: Plan, c: nat) {
    || c in p.extra
    || (exists g <- p.groups :: c in Columns(p.src, 0, g.expr))
    || exists a <- p.aggs :: |a.args| == 1 && c in Columns(p.src, 0, a.args[0])
  }

  /** The projection names exactly the needed columns, each once, in table order. */
  ghost predicate ProjectsNeeded(p: Plan, projection: seq<Text>, columns: seq<nat>) {
    && |columns| == |projection|
    && (forall i, j | 0 <= i < j < |columns| :: columns[i] < columns[j])
    && (forall c: nat :: c in columns <==> Needed(p, c))
    && forall i | 0 <= i < |columns| :: columns[i] < |p.src.scan.names| && projection[i] == p.src.scan.names[columns[i]]
  }

  ghost predicate GroupsAsPlanned(p: Plan, groups: seq<Group>) {
    |groups| == |p.groups| && forall i | 0 <= i < |groups| :: GroupAsPlanned(groups[i], p.groups[i])
  }

  ghost predicate AggsAsPlanned(p: Plan, aggs: seq<Agg>) {
    |aggs| == |p.aggs| && forall i | 0 <= i < |aggs| :: AggAsPlanned(aggs[i], p.aggs[i])
  }

  ghost predicate OrderAsPlanned(p: Plan, order: seq<OrderKey>) {
    |order| == |p.order| && forall i | 0 <= i < |order| :: KeyAsPlanned(p, order[i], p.order[i])
  }

  ghost predicate AsPlanned(p: Plan, m: Message) {
    && m.filter == p.filter && GroupsAsPlanned(p, m.groups) && AggsAsPlanned(p, m.aggs) && OrderAsPlanned(p, m.order)
    && exists columns :: ProjectsNeeded(p, m.projection, columns)
  }

  lemma {:induction false} NeededByGroups(p: Plan, c: nat, n: nat)
    requires n <= |p.groups|
    ensures c in GroupColumns(p, n) <==> exists i | 0 <= i < n :: c in Columns(p.src, 0, p.groups[i].expr)
  {
    if n != 0 {
      NeededByGroups(p, c, n - 1);
    }
  }

  lemma {:induction false} NeededByAggs(p: Plan, c: nat, n: nat)
    requires n <= |p.aggs|
    ensures c in AggColumns(p, n) <==>
            exists i | 0 <= i < n :: |p.aggs[i].args| == 1 && c in Columns(p.src, 0, p.aggs[i].args[0])
  {
    if n != 0 {
      NeededByAggs(p, c, n - 1);
    }
  }

  lemma NeededIsRecorded(p: Plan, c: nat)
    ensures c in PlanColumns(p) <==> Needed(p, c)
  {
    NeededByGroups(p, c, |p.groups|);
    NeededByAggs(p, c, |p.aggs|);
    if exists g <- p.groups :: c in Columns(p.src, 0, g.expr) {
      var g :| g in p.groups && c in Columns(p.src, 0, g.expr);
      var i :| 0 <= i < |p.groups| && p.groups[i] == g;
      assert c in Columns(p.src, 0, p.groups[i].expr);
    }
    if exists a <- p.aggs :: |a.args| == 1 && c in Columns(p.src, 0, a.args[0]) {
      var a :| a in p.aggs && |a.args| == 1 && c in Columns(p.src, 0, a.args[0]);
      var i :| 0 <= i < |p.aggs| && p.aggs[i] == a;
      assert |p.aggs[i].args| == 1 && c in Columns(p.src, 0, p.aggs[i].args[0]);
    }
  }

  /** The columns behind the projected names. */
  function ColumnsUpTo(columns: set<nat>, n: nat): seq<nat> {
    if n == 0 then [] else ColumnsUpTo(columns, n - 1) + if n - 1 in columns then [n - 1] else []
  }

  lemma {:induction false} ColumnsAscend(names: seq<Text>, columns: set<nat>, n: nat)
    requires n <= |names|
    ensures var cs, r := ColumnsUpTo(columns, n), NamesUpTo(names, columns, n);
            && |cs| == |r|
            && (forall i, j | 0 <= i < j < |cs| :: cs[i] < cs[j])
            && (forall c: nat :: c in cs <==> c in columns && c < n)
            && forall i | 0 <= i < |cs| :: cs[i] < |names| && r[i] == names[cs[i]]
  {
    if n != 0 {
      ColumnsAscend(names, columns, n - 1);
      var before := ColumnsUpTo(columns, n - 1);
      assert forall i | 0 <= i < |before| :: before[i] in before;
    }
  }

  lemma ProjectionAsPlanned(p: Plan, projection: seq<Text>)
    requires ScanNames(p.src.scan.names, PlanColumns(p)) == Some(projection)
    ensures ProjectsNeeded(p, projection, ColumnsUpTo(PlanColumns(p), |p.src.scan.names|))
  {
    var names, columns := p.src.scan.names, PlanColumns(p);
    ColumnsAscend(names, columns, |names|);
    forall c: nat
      ensures c in ColumnsUpTo(columns, |names|) <==> Needed(p, c)
    {
      NeededIsRecorded(p, c);
      assert c in columns ==> Nameable(names, c);
    }
  }

  lemma KeyIsPlanned(p: Plan, names: seq<Text>, item: SortItem)
    requires VisibleNames(p) == Some(names) && KeyOf(p, names, item).Some?
    ensures KeyAsPlanned(p, KeyOf(p, names, item).value, item)
  {
    var i := KeyIndex(p, item.expr).value;
    assert StandsFor(p, item.expr, i) && Called(p, i, names[i]);
  }

  lemma GroupsArePlanned(p: Plan, groups: seq<Group>)
    requires GroupsUpTo(p, |p.groups|) == Some(groups)
    ensures GroupsAsPlanned(p, groups)
  {
    forall i | 0 <= i < |groups|
      ensures GroupAsPlanned(groups[i], p.groups[i])
    {
      assert GroupOf(p.src, p.groups[i]) == Some(groups[i]);
    }
  }

  lemma AggsArePlanned(p: Plan, aggs: seq<Agg>)
    requires AggsUpTo(p, |p.aggs|) == Some(aggs)
    ensures AggsAsPlanned(p, aggs)
  {
    forall i | 0 <= i < |aggs|
      ensures AggAsPlanned(aggs[i], p.aggs[i])
    {
      assert AggOf(p.src, p.aggs[i]) == Some(aggs[i]);
    }
  }

  lemma OrderIsPlanned(p: Plan, order: seq<OrderKey>)
    requires PlanOrder(p) == Some(order)
    ensures OrderAsPlanned(p, order)
  {
    var names := VisibleNames(p).value;
    forall i | 0 <= i < |order|
      ensures KeyAsPlanned(p, order[i], p.order[i])
    {
      assert KeyOf(p, names, p.order[i]) == Some(order[i]);
      KeyIsPlanned(p, names, p.order[i]);
    }
  }

  lemma MessageAsPlanned(p: Plan)
    requires PlanMessage(p).Some?
    ensures AsPlanned(p, PlanMessage(p).value)
  {
    var m := PlanMessage(p).value;
    GroupsArePlanned(p, m.groups);
    AggsArePlanned(p, m.aggs);
    OrderIsPlanned(p, m.order);
    ProjectionAsPlanned(p, m.projection);
  }

  /** Groups and aggregate arguments have on a table row the values that the plan's own expressions have on the
      projected row. */
  ghost predicate ValuesKept<D(!new)>(en: Engine<D>, p: Plan, row: nat -> D, named: Text -> D, m: Message)
    requires WellFormed(p.src)
  {
    && |m.groups| == |p.groups| && |m.aggs| == |p.aggs|
    && (forall i | 0 <= i < |m.groups| && WellBound(p.src, 0, p.groups[i].expr) ::
          EvalIr(en, named, m.groups[i].expr) == Eval(en, p.src, row, 0, p.groups[i].expr))
    && (forall i | 0 <= i < |m.aggs| :: |m.aggs[i].args| == |p.aggs[i].args| <= 1)
    && (forall i | 0 <= i < |m.aggs| && |p.aggs[i].args| == 1 && WellBound(p.src, 0, p.aggs[i].args[0]) ::
          EvalIr(en, named, m.aggs[i].args[0]) == Eval(en, p.src, row, 0, p.aggs[i].args[0]))
  }

  lemma MessageKeepsValues<D(!new)>(en: Engine<D>, p: Plan, row: nat -> D, named: Text -> D)
    requires PlanMessage(p).Some? && Comparable(en, p.src, row, named) && ExactPlan(en, p)
    ensures ValuesKept(en, p, row, named, PlanMessage(p).value)
  {
    var m := PlanMessage(p).value;
    forall i | 0 <= i < |m.groups|
      ensures EvalIr(en, named, m.groups[i].expr) == Eval(en, p.src, row, 0, p.groups[i].expr)
    {
      GroupMeaning(en, p, row, named, m.groups, i);
    }
    forall i | 0 <= i < |m.aggs|
      ensures |m.aggs[i].args| == |p.aggs[i].args| <= 1
      ensures |m.aggs[i].args| == 1
          ==> EvalIr(en, named, m.aggs[i].args[0]) == Eval(en, p.src, row, 0, p.aggs[i].args[0])
    {
      ArgMeaning(en, p, row, named, m.aggs, i);
    }
  }

  /** The parser reads, from the plan's bytes, the plan's filter, its groups and aggregates under their functions, names
      and types, its order keys and the columns it needs; and the values are kept on every row. */
  lemma ParsedPlanMeaning<D(!new)>(en: Engine<D>, p: Plan, row: nat -> D, named: Text -> D)
    requires PlanBytes(p).Some? && ReadableMessage(PlanMessage(p).value)
    requires Comparable(en, p.src, row, named) && ExactPlan(en, p)
    ensures ReadMessage(PlanBytes(p).value).Some?
    ensures AsPlanned(p, ReadMessage(PlanBytes(p).value).value)
    ensures ValuesKept(en, p, row, named, ReadMessage(PlanBytes(p).value).value)
  {
    PlanRoundTrip(p);
    MessageAsPlanned(p);
    MessageKeepsValues(en, p, row, named);
  }
}
