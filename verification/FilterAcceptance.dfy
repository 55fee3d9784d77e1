/** Which predicates, table filters and SET expressions are compiled at all. */
module FilterAcceptance {
  import opened Bytes
  import IR = ExprIR
  import D = ExprDecode
  import opened FilterPushdown
  import opened TableFilters

  // Columns.

  /** The first field of that name. */
  predicate IsField(fields: seq<(Text, IR.LogicalType)>, name: Text, k: nat) {
    k < |fields| && fields[k].0 == name && forall j | 0 <= j < k :: fields[j].0 != name
  }

  /** The reference starts at table column `id` and ends at a leaf of that type. */
  ghost predicate Leads(scan: Scan, e: Bound, id: nat, leaf: IR.LogicalType)
    decreases e
  {
    match e
    case Ref(i) => StartsAt(scan, i, id, leaf)
    case ColumnRef(table, column, depth) => depth == 0 && table == scan.table && StartsAt(scan, column, id, leaf)
    case StructExtract(child, field) =>
      && field.TextValue?
      && exists fields: seq<(Text, IR.LogicalType)>, k: nat ::
           Leads(scan, child, id, IR.Struct(fields)) && IsField(fields, field.text, k) && fields[k].1 == leaf
    case _ => false
  }

  predicate StartsAt(scan: Scan, i: nat, id: nat, leaf: IR.LogicalType) {
    && i < |scan.columnIds| && scan.columnIds[i] == Column(id) && id < |scan.names| && id < |scan.types|
    && scan.types[id] == leaf
  }

  lemma {:induction false} FieldFound(fields: seq<(Text, IR.LogicalType)>, name: Text) returns (k: nat)
    ensures FieldType(fields, name).Some? ==> IsField(fields, name, k) && FieldType(fields, name).value == fields[k].1
  {
    k := 0;
    if fields != [] && fields[0].0 != name {
      k := FieldFound(fields[1..], name);
      if FieldType(fields, name).Some? {
        assert forall j | 0 <= j < k :: fields[1..][j] == fields[j + 1];
        k := k + 1;
      }
    }
  }

  lemma {:induction false} FieldIsFound(fields: seq<(Text, IR.LogicalType)>, name: Text, k: nat)
    requires IsField(fields, name, k)
    ensures FieldType(fields, name) == Some(fields[k].1)
  {
    if k != 0 {
      assert forall j | 0 <= j < k - 1 :: fields[1..][j] == fields[j + 1];
      FieldIsFound(fields[1..], name, k - 1);
    }
  }

  lemma {:induction false} PathLeads(scan: Scan, e: Bound) returns (id: nat)
    requires BuildPath(scan, e).Some?
    ensures Leads(scan, e, id, BuildPath(scan, e).value.1)
    ensures id < |scan.names| && BuildPath(scan, e).value.0[0] == scan.names[id]
    decreases e
  {
    match e
    case Ref(i) => id := scan.columnIds[i].id;
    case ColumnRef(_, column, _) => id := scan.columnIds[column].id;
    case StructExtract(child, field) =>
      id := PathLeads(scan, child);
      var fields := BuildPath(scan, child).value.1.fields;
      var k := FieldFound(fields, field.text);
      assert Leads(scan, child, id, IR.Struct(fields)) && IsField(fields, field.text, k);
    case _ =>
  }

  lemma {:induction false} LeadsPath(scan: Scan, e: Bound, id: nat, leaf: IR.LogicalType)
    requires Leads(scan, e, id, leaf)
    ensures id < |scan.names| && BuildPath(scan, e).Some? && BuildPath(scan, e).value.1 == leaf
    ensures BuildPath(scan, e).value.0[0] == scan.names[id]
    decreases e
  {
    if e.StructExtract? {
      var fields: seq<(Text, IR.LogicalType)>, k: nat :|
        Leads(scan, e.child, id, IR.Struct(fields)) && IsField(fields, e.field.text, k) && fields[k].1 == leaf;
      LeadsPath(scan, e.child, id, IR.Struct(fields));
      FieldIsFound(fields, e.field.text, k);
    }
  }

  /** The reference leads to a supported leaf of a column that is not left out. */
  ghost predicate PushableColumn(scan: Scan, excludeComputed: bool, e: Bound) {
    exists id: nat, leaf ::
      Leads(scan, e, id, leaf) && !leaf.OtherType?
      && !(excludeComputed && id < |scan.names| && scan.names[id] in scan.computed)
  }

  lemma ColumnsPushed(scan: Scan, excludeComputed: bool, e: Bound)
    ensures BuildColumn(scan, excludeComputed, e).Some? <==> PushableColumn(scan, excludeComputed, e)
  {
    if BuildColumn(scan, excludeComputed, e).Some? {
      var id := PathLeads(scan, e);
    }
    if PushableColumn(scan, excludeComputed, e) {
      var id: nat, leaf :| Leads(scan, e, id, leaf) && !leaf.OtherType?
                      && !(excludeComputed && id < |scan.names| && scan.names[id] in scan.computed);
      LeadsPath(scan, e, id, leaf);
    }
  }

  // Predicates.

  /** A constant, or a constant under a cast, whose value as VARCHAR is that text. */
  predicate FoldsTo(e: Bound, text: Text, src: Surroundings) {
    || (e.Constant? && !e.value.NullValue? && src.castValue(e.value, IR.Varchar) == Some(IR.TextValue(text)))
    || (&& e.CastTo? && !e.tryCast && e.child.Constant? && !e.child.value.NullValue?
        && src.castValue(e.child.value, e.to).Some?
        && src.castValue(src.castValue(e.child.value, e.to).value, IR.Varchar) == Some(IR.TextValue(text)))
  }

  lemma Folds(e: Bound, text: Text, src: Surroundings)
    ensures TextConstant(e, src) == Some(text) <==> FoldsTo(e, text, src)
  {
  }

  ghost predicate FoldsToText(e: Bound, src: Surroundings) {
    exists text :: FoldsTo(e, text, src)
  }

  lemma FoldsSome(e: Bound, src: Surroundings)
    ensures TextConstant(e, src).Some? <==> FoldsToText(e, src)
  {
    if TextConstant(e, src).Some? {
      Folds(e, TextConstant(e, src).value, src);
    }
    forall text
      ensures TextConstant(e, src) == Some(text) <==> FoldsTo(e, text, src)
    {
      Folds(e, text, src);
    }
  }

  /** The functions that are pushed, with the arguments they take besides the first. */
  ghost predicate PushableCall(target: Target, name: Text, args: seq<Bound>, src: Surroundings) {
    || ((name == D.LOWER || name == D.UPPER) && |args| == 1)
    || (&& (name == D.STARTS_WITH || name == D.ENDS_WITH || name == D.CONTAINS)
        && |args| == 2 && FoldsToText(args[1], src))
    || (target.OnScan? && (name == TILDE || name == ILIKE) && |args| == 2 && FoldsToText(args[1], src))
    || (target.OnScan? && (name == LIKE_ESCAPE || name == ILIKE_ESCAPE) && |args| == 3 && FoldsToText(args[1], src)
        && FoldsTo(args[2], [BACKSLASH], src))
  }

  /** What a filter builder compiles. */
  ghost predicate Pushable(target: Target, e: Bound, src: Surroundings)
    decreases e
  {
    match e
    case Ref(_) => target.OnColumn? || PushableColumn(target.scan, target.excludeComputed, e)
    case ColumnRef(_, _, _) => target.OnScan? && PushableColumn(target.scan, target.excludeComputed, e)
    case StructExtract(_, _) => target.OnScan? && PushableColumn(target.scan, target.excludeComputed, e)
    case Constant(_) => true
    case CastTo(child, to, tryCast) => !tryCast && child.Constant? && src.castValue(child.value, to).Some?
    case Compare(cmp, l, r) => cmp.Some? && Pushable(target, l, src) && Pushable(target, r, src)
    case Conjoin(conj, children) => conj.Some? && AllPushable(target, children, src)
    case Negate(child) => Pushable(target, child, src)
    case NullTest(_, child) => Pushable(target, child, src)
    case InTest(_, child, items) =>
      && items != [] && Pushable(target, child, src)
      && forall k | 0 <= k < |items| :: items[k].Constant?
    case Between(x, l, u, _, _) =>
      target.OnScan? && Pushable(target, x, src) && Pushable(target, l, src) && Pushable(target, u, src)
    case Call(name, args) =>
      args != [] && Pushable(target, args[0], src) && PushableCall(target, name, args, src)
    case OtherExpr => false
  }

  ghost predicate AllPushable(target: Target, es: seq<Bound>, src: Surroundings)
    decreases es
  {
    es == [] || (Pushable(target, es[0], src) && AllPushable(target, es[1..], src))
  }

  lemma {:induction false} ConstantsPushed(es: seq<Bound>)
    ensures BuildConstants(es).Some? <==> forall k | 0 <= k < |es| :: es[k].Constant?
  {
    if es != [] {
      ConstantsPushed(es[1..]);
      assert forall k | 0 <= k < |es| - 1 :: es[1..][k] == es[k + 1];
      assert forall k | 0 < k < |es| :: es[k] == es[1..][k - 1];
    }
  }

  lemma {:induction false} AllPushed(target: Target, es: seq<Bound>, src: Surroundings)
    ensures BuildAll(target, es, src).Some? <==> AllPushable(target, es, src)
    decreases es
  {
    if es != [] {
      Pushes(target, es[0], src);
      AllPushed(target, es[1..], src);
    }
  }

  lemma CallPushes(target: Target, name: Text, args: seq<Bound>, src: Surroundings)
    requires args != [] && (BuildSub(target, args[0], src).Some? <==> Pushable(target, args[0], src))
    ensures Build(target, Call(name, args), src).Some? <==> Pushable(target, Call(name, args), src)
  {
    if |args| >= 2 {
      FoldsSome(args[1], src);
    }
    if |args| >= 3 {
      FoldsSome(args[2], src);
      Folds(args[2], [BACKSLASH], src);
    }
  }

  /** A predicate is compiled exactly when it is pushable. */
  lemma {:induction false} Pushes(target: Target, e: Bound, src: Surroundings)
    ensures Build(target, e, src).Some? <==> Pushable(target, e, src)
    decreases e
  {
    match e
    case Ref(_) =>
      if target.OnScan? {
        ColumnsPushed(target.scan, target.excludeComputed, e);
      }
    case ColumnRef(_, _, _) =>
      if target.OnScan? {
        ColumnsPushed(target.scan, target.excludeComputed, e);
      }
    case StructExtract(_, _) =>
      if target.OnScan? {
        ColumnsPushed(target.scan, target.excludeComputed, e);
      }
    case Constant(_) =>
    case CastTo(_, _, _) =>
    case Compare(_, l, r) => Pushes(target, l, src); Pushes(target, r, src);
    case Conjoin(_, children) => AllPushed(target, children, src);
    case Negate(child) => Pushes(target, child, src);
    case NullTest(_, child) => Pushes(target, child, src);
    case InTest(_, child, items) => Pushes(target, child, src); ConstantsPushed(items);
    case Between(x, l, u, _, _) => Pushes(target, x, src); Pushes(target, l, src); Pushes(target, u, src);
    case Call(name, args) =>
      if args != [] {
        Pushes(target, args[0], src);
        CallPushes(target, name, args, src);
      }
    case OtherExpr =>
  }

  // Table filters.

  ghost predicate PushableFilter(name: Text, f: TableFilter, src: Surroundings)
    decreases f
  {
    match f
    case OptionalFilter(child) => child.Some? && PushableFilter(name, child.value, src)
    case ConstantFilter(cmp, _) => cmp.Some?
    case ConjunctionFilter(_, fs) => AllPushableFilters(name, fs, src)
    case ExpressionFilter(e) => e.Some? && Pushable(OnColumn(name), e.value, src)
    case OtherFilter => false
    case _ => true
  }

  ghost predicate AllPushableFilters(name: Text, fs: seq<TableFilter>, src: Surroundings)
    decreases fs
  {
    fs == [] || (PushableFilter(name, fs[0], src) && AllPushableFilters(name, fs[1..], src))
  }

  lemma {:induction false} AllFiltersPushed(name: Text, fs: seq<TableFilter>, src: Surroundings)
    ensures CompileAll(name, fs, src).Some? <==> AllPushableFilters(name, fs, src)
    decreases fs
  {
    if fs != [] {
      FilterPushes(name, fs[0], src);
      AllFiltersPushed(name, fs[1..], src);
    }
  }

  /** A table filter is compiled exactly when it is pushable. */
  lemma {:induction false} FilterPushes(name: Text, f: TableFilter, src: Surroundings)
    ensures Compile(name, f, src).Some? <==> PushableFilter(name, f, src)
    decreases f
  {
    match f
    case OptionalFilter(Some(child)) => FilterPushes(name, child, src);
    case ConjunctionFilter(_, fs) => AllFiltersPushed(name, fs, src);
    case ExpressionFilter(Some(e)) => Pushes(OnColumn(name), e, src);
    case _ =>
  }
}
