/** The filter message of a scan: which table filters become parts, and which rows the message keeps. */
module ScanFilters {
  import opened Bytes
  import IR = ExprIR
  import D = ExprDecode
  import T = ExprRoundTrip
  import S = FilterSemantics
  import opened FilterPushdown
  import opened TableFilters

  /** A filter on one scanned column; a missing filter restricts nothing. */
  datatype Entry = Entry(index: nat, filter: Option<TableFilter>)

  /** The column a filter is about, when the scan has it. */
  function ColumnName(scan: Scan, i: nat): Option<Text> {
    var (path, _) :- ScanColumn(scan, i);
    Some(path[0])
  }

  /** The IR pushed for an entry, if it can be pushed. */
  function PartOf(scan: Scan, excludeComputed: bool, e: Entry, src: Surroundings): Option<IR.Node> {
    var f :- e.filter;
    var (path, ty) :- ScanColumn(scan, e.index);
    if (excludeComputed && path[0] in scan.computed) || !Supported(ty) then None
    else
      var n :- Compile(path[0], f, src);
      if IR.Encode(n).Some? then Some(n) else None
  }

  predicate Pushed(scan: Scan, excludeComputed: bool, e: Entry, src: Surroundings) {
    PartOf(scan, excludeComputed, e, src).Some?
  }

  /** A filter on a computed search column, which a prefilter leaves out by design. */
  predicate OnComputed(scan: Scan, excludeComputed: bool, e: Entry) {
    && excludeComputed && e.filter.Some?
    && ColumnName(scan, e.index).Some? && ColumnName(scan, e.index).value in scan.computed
  }

  predicate Covered(scan: Scan, excludeComputed: bool, e: Entry, src: Surroundings) {
    Pushed(scan, excludeComputed, e, src) || OnComputed(scan, excludeComputed, e)
  }

  function Parts(scan: Scan, excludeComputed: bool, es: seq<Entry>, src: Surroundings): seq<IR.Node> {
    if es == [] then []
    else
      var head := PartOf(scan, excludeComputed, es[0], src);
      (if head.Some? then [head.value] else []) + Parts(scan, excludeComputed, es[1..], src)
  }

  /** `parts` are the parts of the first `i` entries. */
  predicate Built(scan: Scan, excludeComputed: bool, es: seq<Entry>, i: nat, src: Surroundings, parts: seq<IR.Node>)
    requires i <= |es|
  {
    parts + Parts(scan, excludeComputed, es[i..], src) == Parts(scan, excludeComputed, es, src)
  }

  lemma BuiltStep(scan: Scan, excludeComputed: bool, es: seq<Entry>, i: nat, src: Surroundings, parts: seq<IR.Node>)
    requires i < |es| && Built(scan, excludeComputed, es, i, src, parts)
    ensures var part := PartOf(scan, excludeComputed, es[i], src);
            Built(scan, excludeComputed, es, i + 1, src, if part.Some? then parts + [part.value] else parts)
  {
    assert es[i..][0] == es[i] && es[i..][1..] == es[i + 1..];
  }

  /** One entry: its part, and whether a prefilter still covers it. */
  method BuildPart(scan: Scan, excludeComputed: bool, entry: Entry, src: Surroundings)
    returns (part: Option<IR.Node>, prefilterable: bool)
    ensures part == PartOf(scan, excludeComputed, entry, src)
    ensures prefilterable <==> Covered(scan, excludeComputed, entry, src)
  {
    var Entry(index, filter) := entry;
    if filter.None? || index >= |scan.columnIds| || !scan.columnIds[index].Column? {
      return None, false;
    }
    var id := scan.columnIds[index].id;
    if id >= |scan.names| || id >= |scan.types| {
      return None, false;
    }
    if excludeComputed && scan.names[id] in scan.computed {
      return None, true;
    }
    if !Supported(scan.types[id]) {
      return None, false;
    }
    var node := Compile(scan.names[id], filter.value, src);
    if node.None? || IR.Encode(node.value).None? {
      return None, false;
    }
    return node, true;
  }

  /** The parts of all entries that can be pushed, and whether that is all of them. */
  method BuildParts(scan: Scan, excludeComputed: bool, entries: seq<Entry>, src: Surroundings)
    returns (parts: seq<IR.Node>, allPushed: bool, allPrefilterable: bool)
    ensures parts == Parts(scan, excludeComputed, entries, src)
    ensures allPushed <==> forall k | 0 <= k < |entries| :: Pushed(scan, excludeComputed, entries[k], src)
    ensures allPrefilterable <==>
            forall k | 0 <= k < |entries| ::
              Covered(scan, excludeComputed, entries[k], src)
  {
    parts, allPushed, allPrefilterable := [], true, true;
    for i := 0 to |entries|
      invariant Built(scan, excludeComputed, entries, i, src, parts)
      invariant allPushed <==> forall k | 0 <= k < i :: Pushed(scan, excludeComputed, entries[k], src)
      invariant allPrefilterable <==> forall k | 0 <= k < i :: Covered(scan, excludeComputed, entries[k], src)
    {
      var part, prefilterable := BuildPart(scan, excludeComputed, entries[i], src);
      BuiltStep(scan, excludeComputed, entries, i, src, parts);
      if part.Some? {
        parts := parts + [part.value];
      } else {
        allPushed := false;
        if !prefilterable {
          allPrefilterable := false;
        }
      }
    }
  }

  function Root(parts: seq<IR.Node>): IR.Node
    requires parts != []
  {
    if |parts| == 1 then parts[0] else IR.Conjunction(IR.And, parts)
  }

  /** No parts give the empty message; otherwise one part is sent alone and several under AND. */
  function Message(parts: seq<IR.Node>): Option<seq<byte>> {
    if parts == [] then Some([])
    else
      var bytes :- IR.Encode(Root(parts));
      Some(D.FILTER_MAGIC + bytes)
  }

  /** The receiver reads the message: an empty one is no filter. */
  predicate Accepts(message: seq<byte>, ctx: D.Context) {
    message == [] || D.ParseMessage(D.FILTER_MAGIC, message, ctx).Some?
  }

  /** A scan with this message keeps the row. */
  predicate Keeps(message: seq<byte>, ctx: D.Context, row: S.Row, sym: S.Symbols)
    requires Accepts(message, ctx)
  {
    message == [] || S.Eval(D.ParseMessage(D.FILTER_MAGIC, message, ctx).value, row, sym) == D.Boolean(true)
  }

  lemma {:induction false} AllPrefix(nodes: seq<IR.Node>, ctx: D.Context)
    requires T.TranslateAll(nodes, ctx).Some? && nodes != []
    ensures T.TranslateAll(nodes[1..], ctx).Some? && T.Translate(nodes[0], ctx).Some?
    ensures T.TranslateAll(nodes, ctx).value == [T.Translate(nodes[0], ctx).value]
        + T.TranslateAll(nodes[1..], ctx).value
  {
    assert T.TranslateSub(nodes[0], ctx) == T.Translate(nodes[0], ctx);
  }

  predicate AllTrue(xs: seq<D.Scalar>) {
    forall k | 0 <= k < |xs| :: xs[k] == D.Boolean(true)
  }

  /** A message is accepted exactly when each part decodes, and keeps exactly the rows on which every part is true. */
  lemma MessageMeaning(parts: seq<IR.Node>, ctx: D.Context, row: S.Row, sym: S.Symbols)
    requires Message(parts).Some? && Accepts(Message(parts).value, ctx)
    ensures T.TranslateAll(parts, ctx).Some?
    ensures Keeps(Message(parts).value, ctx, row, sym)
            <==> AllTrue(S.EvalAll(T.TranslateAll(parts, ctx).value, row, sym))
  {
    if parts != [] {
      T.MessageRoundTrip(D.FILTER_MAGIC, Root(parts), ctx);
      if |parts| == 1 {
        SingleMessage(parts[0], ctx, row, sym);
        assert parts == [parts[0]];
        var xs := S.EvalAll(T.TranslateAll(parts, ctx).value, row, sym);
        assert AllTrue(xs) <==> xs[0] == D.Boolean(true);
      } else {
        ConjunctionTranslation(IR.And, parts, ctx, row, sym);
        NaryTrue(S.EvalAll(T.TranslateAll(parts, ctx).value, row, sym));
      }
    }
  }

  lemma SingleMessage(part: IR.Node, ctx: D.Context, row: S.Row, sym: S.Symbols)
    requires T.Translate(part, ctx).Some?
    ensures T.TranslateAll([part], ctx).Some?
    ensures S.EvalAll(T.TranslateAll([part], ctx).value, row, sym) == [S.Eval(T.Translate(part, ctx).value, row, sym)]
  {
    assert T.TranslateSub(part, ctx) == T.Translate(part, ctx);
    assert [part][1..] == [];
    assert T.TranslateAll([part], ctx).Some?;
    SingleTranslation(part, ctx, row, sym);
  }

  lemma NaryTrue(xs: seq<D.Scalar>)
    requires xs != []
    ensures S.Nary(IR.And, xs) == D.Boolean(true) <==> AllTrue(xs)
  {
    if AllTrue(xs) {
      assert xs[0] == D.Boolean(true);
    }
  }

  /** What the references of each scanned column's filter denote on a row. */
  type Envs = nat -> Env

  ghost predicate DescribesScan(scan: Scan, envs: Envs, src: Surroundings, sym: S.Symbols, row: S.Row) {
    && Faithful(src)
    && forall i: nat | i < |scan.columnIds| && scan.columnIds[i].Column? && scan.columnIds[i].id < |scan.names| ::
         && Describes(envs(i), OnColumn(scan.names[scan.columnIds[i].id]), row)
         && envs(i).src == src && envs(i).sym == sym
  }

  predicate Holds(e: Entry, envs: Envs) {
    e.filter.Some? ==> FilterMeaning(e.filter.value, envs(e.index)) == D.Boolean(true)
  }

  predicate WellTypedEntries(es: seq<Entry>) {
    forall k | 0 <= k < |es| :: es[k].filter.Some? ==> WellTypedFilter(es[k].filter.value)
  }

  /** All pushed entries hold. */
  predicate PushedHold(scan: Scan, excludeComputed: bool, es: seq<Entry>, src: Surroundings, envs: Envs) {
    forall k | 0 <= k < |es| && Pushed(scan, excludeComputed, es[k], src) :: Holds(es[k], envs)
  }

  lemma {:induction false} PartsMeaning(scan: Scan, excl: bool, es: seq<Entry>, src: Surroundings, sym: S.Symbols,
                                        ctx: D.Context, envs: Envs, row: S.Row)
    requires DescribesScan(scan, envs, src, sym, row) && WellTypedEntries(es)
    requires T.TranslateAll(Parts(scan, excl, es, src), ctx).Some?
    ensures AllTrue(S.EvalAll(T.TranslateAll(Parts(scan, excl, es, src), ctx).value, row, sym))
            <==> PushedHold(scan, excl, es, src, envs)
  {
    if es != [] {
      var tail := es[1..];
      var parts, rest := Parts(scan, excl, es, src), Parts(scan, excl, tail, src);
      var part := PartOf(scan, excl, es[0], src);
      if part.Some? {
        assert parts == [part.value] + rest && parts[1..] == rest;
        AllPrefix(parts, ctx);
        PartMeaning(scan, excl, es[0], src, sym, ctx, envs, row);
        TrueCons(T.TranslateAll(parts, ctx).value, row, sym);
      } else {
        assert parts == rest;
      }
      PartsMeaning(scan, excl, tail, src, sym, ctx, envs, row);
      PushedHoldCons(scan, excl, es, src, envs);
    }
  }

  lemma PartMeaning(scan: Scan, excl: bool, e: Entry, src: Surroundings, sym: S.Symbols, ctx: D.Context, envs: Envs,
      row: S.Row)
    requires DescribesScan(scan, envs, src, sym, row) && WellTypedEntries([e])
    requires PartOf(scan, excl, e, src).Some? && T.Translate(PartOf(scan, excl, e, src).value, ctx).Some?
    ensures S.Eval(T.Translate(PartOf(scan, excl, e, src).value, ctx).value, row, sym) == D.Boolean(true)
        <==> Holds(e, envs)
  {
    var name := ColumnName(scan, e.index).value;
    assert [e][0] == e;
    CompileMeaning(name, e.filter.value, ctx, envs(e.index), row);
  }

  lemma TrueCons(es: seq<D.Expr>, row: S.Row, sym: S.Symbols)
    requires es != []
    ensures AllTrue(S.EvalAll(es, row, sym))
            <==> S.Eval(es[0], row, sym) == D.Boolean(true) && AllTrue(S.EvalAll(es[1..], row, sym))
  {
    var xs, tail := S.EvalAll(es, row, sym), S.EvalAll(es[1..], row, sym);
    assert S.EvalSub(es[0], row, sym) == S.Eval(es[0], row, sym);
    assert xs == [xs[0]] + tail;
    assert forall k | 0 <= k < |tail| :: tail[k] == xs[k + 1];
    assert forall k | 0 < k < |xs| :: xs[k] == tail[k - 1];
  }

  lemma PushedHoldCons(scan: Scan, excl: bool, es: seq<Entry>, src: Surroundings, envs: Envs)
    requires es != []
    ensures PushedHold(scan, excl, es, src, envs)
            <==> (Pushed(scan, excl, es[0], src) ==> Holds(es[0], envs)) && PushedHold(scan, excl, es[1..], src, envs)
  {
    assert forall k | 0 <= k < |es| - 1 :: es[1..][k] == es[k + 1];
    assert forall k | 0 < k < |es| :: es[k] == es[1..][k - 1];
  }

  /** The pushed message never drops a row that satisfies all filters, and keeps exactly those rows
      when every filter was pushed. */
  lemma PushdownSound(scan: Scan, excl: bool, es: seq<Entry>, src: Surroundings, sym: S.Symbols,
                      ctx: D.Context, envs: Envs, row: S.Row)
    requires DescribesScan(scan, envs, src, sym, row) && WellTypedEntries(es)
    requires Message(Parts(scan, excl, es, src)).Some? && Accepts(Message(Parts(scan, excl, es, src)).value, ctx)
    ensures var keeps := Keeps(Message(Parts(scan, excl, es, src)).value, ctx, row, sym);
            var all := forall k | 0 <= k < |es| :: Holds(es[k], envs);
            && (all ==> keeps)
            && ((forall k | 0 <= k < |es| :: Pushed(scan, excl, es[k], src)) ==> (keeps <==> all))
  {
    MessageMeaning(Parts(scan, excl, es, src), ctx, row, sym);
    PartsMeaning(scan, excl, es, src, sym, ctx, envs, row);
  }
}
