/** Scanned columns with child indexes: the path they are encoded as, and the value they denote. */
module ChildPaths {
  import opened Bytes
  import IR = ExprIR
  import D = ExprDecode
  import S = FilterSemantics
  import P = FilterPushdown

  /** The fields of a struct that a scan needs, each with the fields needed of it. */
  datatype Child = Child(index: nat, children: seq<Child>)

  function Indexes(cs: seq<Child>): (r: seq<nat>)
    ensures |r| == |cs|
  {
    seq(|cs|, i requires 0 <= i < |cs| => cs[i].index)
  }

  /** Siblings without children of their own are put one after the other, as if each were a field of the one before. */
  function Linearize(cs: seq<Child>): Option<seq<nat>>
    decreases cs
  {
    if cs == [] then Some([])
    else if |cs| > 1 then
      if exists i | 0 <= i < |cs| :: cs[i].children != [] then None else Some(Indexes(cs))
    else
      var rest :- Linearize(cs[0].children);
      Some([cs[0].index] + rest)
  }

  /** The names of the fields reached, and the type of the last. */
  function Walk(ty: IR.LogicalType, indexes: seq<nat>): (r: Option<(seq<P.Text>, IR.LogicalType)>)
    ensures r.Some? ==> |r.value.0| == |indexes|
    decreases indexes
  {
    if indexes == [] then Some(([], ty))
    else if !ty.Struct? || indexes[0] >= |ty.fields| then None
    else
      var (name, fieldType) := ty.fields[indexes[0]];
      var (rest, leaf) :- Walk(fieldType, indexes[1..]);
      Some(([name] + rest, leaf))
  }

  /** The path a reference to the column is encoded as. */
  function EncodedPath(name: P.Text, ty: IR.LogicalType, cs: seq<Child>): Option<seq<P.Text>> {
    var indexes :- Linearize(cs);
    var (fields, _) :- Walk(ty, indexes);
    Some([name] + fields)
  }

  /** One child at every level: the column stands for a single nested field. */
  predicate Linear(cs: seq<Child>)
    decreases cs
  {
    cs == [] || (|cs| == 1 && Linear(cs[0].children))
  }

  /** The nested field the column stands for: down to the first level with several children, which it keeps together. */
  function Chain(cs: seq<Child>): seq<nat>
    decreases cs
  {
    if |cs| != 1 then [] else [cs[0].index] + Chain(cs[0].children)
  }

  /** Each name is that of the field at its index, in the struct that the names before it lead to. */
  predicate FieldsAlong(ty: IR.LogicalType, indexes: seq<nat>, names: seq<P.Text>)
    decreases indexes
  {
    if indexes == [] then names == []
    else
      && names != [] && ty.Struct? && indexes[0] < |ty.fields| && names[0] == ty.fields[indexes[0]].0
      && FieldsAlong(ty.fields[indexes[0]].1, indexes[1..], names[1..])
  }

  /** The path of the field that the column stands for. */
  predicate StandsFor(name: P.Text, ty: IR.LogicalType, cs: seq<Child>, path: seq<P.Text>) {
    path != [] && path[0] == name && FieldsAlong(ty, Chain(cs), path[1..])
  }

  /** A walk goes along the fields; there is one way to do so. */
  lemma {:induction false} WalkIsAlong(ty: IR.LogicalType, indexes: seq<nat>, names: seq<P.Text>)
    requires Walk(ty, indexes).Some?
    ensures FieldsAlong(ty, indexes, names) <==> names == Walk(ty, indexes).value.0
    decreases indexes
  {
    if indexes != [] {
      var rest := Walk(ty.fields[indexes[0]].1, indexes[1..]).value.0;
      if names != [] {
        WalkIsAlong(ty.fields[indexes[0]].1, indexes[1..], names[1..]);
        assert names == [names[0]] + names[1..];
        assert names == [ty.fields[indexes[0]].0] + rest ==> names[1..] == rest;
      }
    }
  }

  lemma {:induction false} ChainIsPrefix(cs: seq<Child>)
    requires Linearize(cs).Some?
    ensures Chain(cs) <= Linearize(cs).value
    ensures Chain(cs) == Linearize(cs).value <==> Linear(cs)
    decreases cs
  {
    if |cs| == 1 {
      ChainIsPrefix(cs[0].children);
    }
  }

  lemma {:induction false} WalkPrefix(ty: IR.LogicalType, a: seq<nat>, b: seq<nat>)
    requires Walk(ty, b).Some? && a <= b
    ensures Walk(ty, a).Some? && Walk(ty, a).value.0 <= Walk(ty, b).value.0
    decreases a
  {
    if a != [] {
      WalkPrefix(ty.fields[b[0]].1, a[1..], b[1..]);
    }
  }

  /** A way to read fields that counts how many were read. */
  function Count(x: D.Scalar): int {
    if x.Int64? then x.i else 0
  }

  const COUNTING := S.Symbols((op, x, y) => false, (op, x, y) => D.Null, (t, x) => D.Null,
    (f, xs: seq<D.Scalar>) => if xs == [] then D.Null else D.Int64(Count(xs[0]) + 1), (x, y, e, c) => D.Null)

  lemma {:induction false} PathCounts(path: seq<P.Text>)
    requires path != []
    ensures S.Eval(D.NestFields(path), (name: P.Text) => D.Int64(0), COUNTING) == D.Int64(|path| - 1)
    decreases path
  {
    var zero: S.Row := (name: P.Text) => D.Int64(0);
    if |path| > 1 {
      var init, last := path[..|path| - 1], path[|path| - 1];
      PathCounts(init);
      var args := [D.NestFields(init), D.Literal(D.Utf8Text(last))];
      assert args[1..][1..] == [];
      assert S.EvalAll(args, zero, COUNTING) ==
        [S.EvalSub(args[0], zero, COUNTING), S.EvalSub(args[1], zero, COUNTING)];
    }
  }

  /** The encoded path has the value the column stands for, on every row, if and only if there is one child at every
      level. */
  lemma ChildPathIff(name: P.Text, ty: IR.LogicalType, cs: seq<Child>, denoted: seq<P.Text>)
    requires EncodedPath(name, ty, cs).Some? && StandsFor(name, ty, cs, denoted)
    ensures var encoded := EncodedPath(name, ty, cs).value;
            (forall row: S.Row, sym: S.Symbols ::
               S.Eval(D.NestFields(encoded), row, sym) == S.Eval(D.NestFields(denoted), row, sym))
            <==> Linear(cs)
  {
    ChainIsPrefix(cs);
    WalkPrefix(ty, Chain(cs), Linearize(cs).value);
    WalkIsAlong(ty, Chain(cs), denoted[1..]);
    var encoded := EncodedPath(name, ty, cs).value;
    assert denoted == [name] + Walk(ty, Chain(cs)).value.0;
    if !Linear(cs) {
      PathCounts(encoded);
      PathCounts(denoted);
      assert |encoded| != |denoted|;
      var zero: S.Row := (name: P.Text) => D.Int64(0);
      assert S.Eval(D.NestFields(encoded), zero, COUNTING) != S.Eval(D.NestFields(denoted), zero, COUNTING);
    }
  }

  /** Whatever is encoded stands for something. */
  lemma SomethingDenoted(name: P.Text, ty: IR.LogicalType, cs: seq<Child>)
    requires EncodedPath(name, ty, cs).Some?
    ensures exists denoted :: StandsFor(name, ty, cs, denoted)
  {
    ChainIsPrefix(cs);
    WalkPrefix(ty, Chain(cs), Linearize(cs).value);
    var fields := Walk(ty, Chain(cs)).value.0;
    WalkIsAlong(ty, Chain(cs), fields);
    assert ([name] + fields)[1..] == fields;
    assert StandsFor(name, ty, cs, [name] + fields);
  }

  /** Two fields of a struct, the first itself a struct of two: the column is read as the second field of the first. */
  lemma SiblingsMisread(c: P.Text, a: P.Text, b: P.Text, x: P.Text, y: P.Text, t: IR.LogicalType)
    ensures var ty := IR.Struct([(a, IR.Struct([(x, t), (y, t)])), (b, t)]);
            var cs := [Child(0, []), Child(1, [])];
            EncodedPath(c, ty, cs) == Some([c, a, y]) && StandsFor(c, ty, cs, [c]) && !Linear(cs)
  {
    var ty := IR.Struct([(a, IR.Struct([(x, t), (y, t)])), (b, t)]);
    var cs := [Child(0, []), Child(1, [])];
    assert Indexes(cs) == [0, 1] && [0, 1][1..] == [1] && [1][1..] == [];
    var inner := IR.Struct([(x, t), (y, t)]);
    assert Walk(t, []) == Some(([], t));
    assert Walk(inner, [1]) == Some(([y] + [], t)) && [y] + [] == [y];
    assert Walk(ty, [0, 1]) == Some(([a] + [y], t)) && [c] + ([a] + [y]) == [c, a, y];
    assert cs[0].children == [] && cs[1].children == [] && Linearize(cs) == Some([0, 1]);
    assert Chain(cs) == [] && [c][1..] == [];
  }
}
