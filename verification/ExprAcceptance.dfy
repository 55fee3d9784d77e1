/** Which encoded trees the decoder accepts. */
module ExprAcceptance {
  import opened Bytes
  import Utf8
  import IR = ExprIR
  import D = ExprDecode
  import T = ExprRoundTrip

  /** Every text is UTF-8, every function is known, and regular expressions have literal patterns that compile. */
  ghost predicate Readable(n: IR.Node, ctx: D.Context)
    decreases n
  {
    match n
    case ColumnRef(path) => forall i | 0 <= i < |path| :: Utf8.Valid(path[i])
    case Literal(v) => v.TextValue? ==> Utf8.Valid(v.text)
    case Cast(_, child) => Readable(child, ctx)
    case Binary(_, l, r) => Readable(l, ctx) && Readable(r, ctx)
    case Comparison(_, l, r) => Readable(l, ctx) && Readable(r, ctx)
    case Conjunction(_, children) => ReadableAll(children, ctx)
    case Not(child) => Readable(child, ctx)
    case Function(name, args) =>
      Utf8.Valid(IR.Lower(name)) && D.Resolvable(IR.Lower(name), ctx) && ReadableAll(args, ctx)
    case Case(branches, otherwise) =>
      ReadableBranches(branches, ctx) && (otherwise.Some? ==> Readable(otherwise.value, ctx))
    case IsNull(child) => Readable(child, ctx)
    case IsNotNull(child) => Readable(child, ctx)
    case InList(_, child, items) => Readable(child, ctx) && ReadableAll(items, ctx)
    case Like(_, _, child, pattern) => Readable(child, ctx) && Readable(pattern, ctx)
    case Regexp(mode, child, pattern, flags) =>
      && Readable(child, ctx) && Readable(pattern, ctx) && (flags.Some? ==> Readable(flags.value, ctx))
      && LiteralText(pattern).Some? && (flags.Some? ==> LiteralText(flags.value).Some?)
      && Compiles(mode, LiteralText(pattern).value, if flags.Some? then LiteralText(flags.value) else None, ctx)
  }

  ghost predicate ReadableAll(ns: seq<IR.Node>, ctx: D.Context)
    decreases ns
  {
    ns == [] || (Readable(ns[0], ctx) && ReadableAll(ns[1..], ctx))
  }

  ghost predicate ReadableBranch(b: IR.Branch, ctx: D.Context)
    decreases b
  {
    Readable(b.when, ctx) && Readable(b.result, ctx)
  }

  ghost predicate ReadableBranches(bs: seq<IR.Branch>, ctx: D.Context)
    decreases bs
  {
    bs == [] || (ReadableBranch(bs[0], ctx) && ReadableBranches(bs[1..], ctx))
  }

  /** A text literal; a conjunction of one operand is that operand. */
  function LiteralText(n: IR.Node): Option<IR.Text> {
    if n.Literal? && n.value.TextValue? then Some(n.value.text)
    else if n.Conjunction? && |n.children| == 1 then LiteralText(n.children[0])
    else None
  }

  /** The flags are only `i`, `s` and blanks, and the pattern (anchored for a full match) compiles under them. */
  predicate Compiles(mode: byte, pattern: IR.Text, flags: Option<IR.Text>, ctx: D.Context) {
    var anchored := if mode == IR.FULL_MATCH then [0x5E, 0x28, 0x3F, 0x3A] + pattern + [0x29, 0x24] else pattern;
    && (flags.Some? ==> D.NormalizeFlags(flags.value).Some?)
    && ctx.compiles(anchored, if flags.None? then None else D.NormalizeFlags(flags.value).value)
  }

  lemma {:induction false} Accepted(n: IR.Node, ctx: D.Context)
    requires IR.Encode(n).Some?
    ensures T.Translate(n, ctx).Some? <==> Readable(n, ctx)
    decreases n, 1
  {
    match n
    case ColumnRef(path) =>
    case Literal(v) =>
    case Cast(to, child) => Accepted(child, ctx);
    case Binary(_, l, r) => Accepted(l, ctx); Accepted(r, ctx);
    case Comparison(_, l, r) => Accepted(l, ctx); Accepted(r, ctx);
    case Conjunction(_, children) => AllAccepted(children, ctx);
    case Not(child) => Accepted(child, ctx);
    case Function(_, args) => AllAccepted(args, ctx);
    case Case(_, _) => CaseAccepted(n, ctx);
    case IsNull(child) => Accepted(child, ctx);
    case IsNotNull(child) => Accepted(child, ctx);
    case InList(_, child, items) => Accepted(child, ctx); AllAccepted(items, ctx);
    case Like(_, _, child, pattern) => Accepted(child, ctx); Accepted(pattern, ctx);
    case Regexp(_, _, _, _) => RegexpAccepted(n, ctx);
  }

  lemma {:induction false} AllAccepted(ns: seq<IR.Node>, ctx: D.Context)
    requires IR.EncodeSubs(ns).Some?
    ensures T.TranslateAll(ns, ctx).Some? <==> ReadableAll(ns, ctx)
    decreases ns
  {
    if ns != [] {
      Accepted(ns[0], ctx);
      AllAccepted(ns[1..], ctx);
    }
  }

  lemma {:induction false} BranchAccepted(b: IR.Branch, ctx: D.Context)
    requires IR.EncodeBranch(b).Some?
    ensures T.TranslateBranch(b, ctx).Some? <==> ReadableBranch(b, ctx)
    decreases b
  {
    Accepted(b.when, ctx);
    Accepted(b.result, ctx);
  }

  lemma {:induction false} BranchesAccepted(bs: seq<IR.Branch>, ctx: D.Context)
    requires IR.EncodeBranches(bs).Some?
    ensures T.TranslateBranches(bs, ctx).Some? <==> ReadableBranches(bs, ctx)
    decreases bs
  {
    if bs != [] {
      BranchAccepted(bs[0], ctx);
      BranchesAccepted(bs[1..], ctx);
    }
  }

  lemma {:induction false} CaseAccepted(n: IR.Node, ctx: D.Context)
    requires n.Case? && IR.Encode(n).Some?
    ensures T.Translate(n, ctx).Some? <==> Readable(n, ctx)
    decreases n, 0
  {
    BranchesAccepted(n.branches, ctx);
    if n.otherwise.Some? {
      Accepted(n.otherwise.value, ctx);
    }
  }

  lemma {:induction false} RegexpAccepted(n: IR.Node, ctx: D.Context)
    requires n.Regexp? && IR.Encode(n).Some?
    ensures T.Translate(n, ctx).Some? <==> Readable(n, ctx)
    decreases n, 0
  {
    Accepted(n.child, ctx);
    TextAccepted(n.pattern, ctx);
    if n.flags.Some? {
      TextAccepted(n.flags.value, ctx);
    }
  }

  /** What decodes to a text literal is one. */
  lemma {:induction false} TextAccepted(n: IR.Node, ctx: D.Context)
    requires IR.Encode(n).Some?
    ensures T.Translate(n, ctx).Some? <==> Readable(n, ctx)
    ensures T.Translate(n, ctx).Some? ==>
        var e := T.Translate(n, ctx).value;
        if e.Literal? && e.value.Utf8Text? then LiteralText(n) == Some(e.value.text) else LiteralText(n).None?
    decreases n, 2
  {
    Accepted(n, ctx);
    if n.Conjunction? && |n.children| == 1 {
      assert IR.EncodeSubs(n.children).Some? && IR.EncodeSub(n.children[0]).Some? && n.children[1..] == [];
      TextAccepted(n.children[0], ctx);
      assert T.TranslateSub(n.children[0], ctx) == T.Translate(n.children[0], ctx);
    }
  }

  /** An encoded tree is accepted exactly when its parts are readable, and decodes to its translation. */
  lemma MessageAccepted(magic: seq<byte>, n: IR.Node, ctx: D.Context)
    requires IR.Encode(n).Some?
    ensures D.ParseMessage(magic, magic + IR.Encode(n).value, ctx).Some? <==> Readable(n, ctx)
    ensures D.ParseMessage(magic, magic + IR.Encode(n).value, ctx) == T.Translate(n, ctx)
  {
    Accepted(n, ctx);
    T.MessageRoundTrip(magic, n, ctx);
  }
}
