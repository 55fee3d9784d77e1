/** Nullability of a nested schema, flattened to preorder depths and flags and applied to another schema in place. */
module SchemaNullability {

  const MAX_DEPTH: nat := 0xFFFF_FFFF
  type Depth = n: nat | n <= MAX_DEPTH

  /** A field of a schema tree; `id` is where its flags are stored. */
  datatype Field = Field(id: nat, children: seq<Field>)
  type Forest = seq<Field>

  /** Depths of all fields in preorder. */
  function Depths(f: Forest, d: nat): seq<nat>
    decreases f
  {
    if f == [] then [] else [d] + Depths(f[0].children, d + 1) + Depths(f[1..], d)
  }

  function Ids(f: Forest): seq<nat>
    decreases f
  {
    if f == [] then [] else [f[0].id] + Ids(f[0].children) + Ids(f[1..])
  }

  /** Equal up to field ids. */
  predicate SameShape(f: Forest, g: Forest)
    decreases f
  {
    |f| == |g| && (f != [] ==> SameShape(f[0].children, g[0].children) && SameShape(f[1..], g[1..]))
  }

  lemma {:induction false} SameCount(f: Forest, d: nat)
    ensures |Depths(f, d)| == |Ids(f)|
    decreases f
  {
    if f != [] {
      SameCount(f[0].children, d + 1);
      SameCount(f[1..], d);
    }
  }

  lemma {:induction false} AtLeast(f: Forest, d: nat, i: nat)
    requires i < |Depths(f, d)|
    ensures Depths(f, d)[i] >= d
    decreases f
  {
    var inner := Depths(f[0].children, d + 1);
    if i == 0 {
    } else if i < 1 + |inner| {
      AtLeast(f[0].children, d + 1, i - 1);
    } else {
      AtLeast(f[1..], d, i - 1 - |inner|);
    }
  }

  /** Nothing follows, or what follows lies above depth `d`. */
  predicate Ends(rest: seq<nat>, d: nat) {
    rest == [] || rest[0] < d
  }

  lemma SiblingsEnd(f: Forest, d: nat, rest: seq<nat>)
    requires Ends(rest, d)
    ensures Ends(Depths(f, d) + rest, d + 1)
    ensures Ends(Depths(f, d) + rest, d) <==> f == []
  {
  }

  /** Below the first field: its children, then its siblings. */
  lemma AfterFirst(f: Forest, d: nat, rest: seq<nat>)
    requires f != []
    ensures Depths(f, d) + rest == [d] + (Depths(f[0].children, d + 1) + (Depths(f[1..], d) + rest))
  {
  }

  lemma Cancel(d: nat, a: seq<nat>, b: seq<nat>)
    requires [d] + a == [d] + b
    ensures a == b
  {
    assert a == ([d] + a)[1..] && b == ([d] + b)[1..];
  }

  /** A depth sequence is read back in only one way. */
  lemma {:induction false} UniqueReading(f: Forest, g: Forest, d: nat, r: seq<nat>, s: seq<nat>)
    requires Depths(f, d) + r == Depths(g, d) + s && Ends(r, d) && Ends(s, d)
    ensures SameShape(f, g) && r == s
    decreases f
  {
    SiblingsEnd(f, d, r);
    SiblingsEnd(g, d, s);
    if f == [] {
      assert Depths(f, d) + r == r && Depths(g, d) + s == s;
    } else {
      var ft, gt := Depths(f[1..], d) + r, Depths(g[1..], d) + s;
      AfterFirst(f, d, r);
      AfterFirst(g, d, s);
      Cancel(d, Depths(f[0].children, d + 1) + ft, Depths(g[0].children, d + 1) + gt);
      SiblingsEnd(f[1..], d, r);
      SiblingsEnd(g[1..], d, s);
      UniqueReading(f[0].children, g[0].children, d + 1, ft, gt);
      UniqueReading(f[1..], g[1..], d, r, s);
    }
  }

  lemma {:induction false} SameDepths(f: Forest, g: Forest, d: nat)
    requires SameShape(f, g)
    ensures Depths(f, d) == Depths(g, d)
    decreases f
  {
    if f != [] {
      SameDepths(f[0].children, g[0].children, d + 1);
      SameDepths(f[1..], g[1..], d);
    }
  }

  /** The preorder depths determine the shape. */
  lemma DepthsDetermineShape(f: Forest, g: Forest)
    ensures Depths(f, 0) == Depths(g, 0) <==> SameShape(f, g)
  {
    if Depths(f, 0) == Depths(g, 0) {
      assert Depths(f, 0) + [] == Depths(g, 0) + [];
      UniqueReading(f, g, 0, [], []);
    }
    if SameShape(f, g) {
      SameDepths(f, g, 0);
    }
  }

  // The checks of the transport.

  /** Depths start at 0 and rise by at most one. */
  predicate ValidDepths(ds: seq<nat>) {
    && (ds != [] ==> ds[0] == 0)
    && forall i | 0 < i < |ds| :: ds[i] <= ds[i - 1] + 1
  }

  function TopLevel(ds: seq<nat>): nat {
    if ds == [] then 0 else TopLevel(ds[..|ds| - 1]) + if ds[|ds| - 1] == 0 then 1 else 0
  }

  predicate Rises(ds: seq<nat>) {
    |ds| < 2 || (ds[1] <= ds[0] + 1 && Rises(ds[1..]))
  }

  lemma {:induction false} RisesEverywhere(ds: seq<nat>)
    ensures Rises(ds) <==> forall i | 0 < i < |ds| :: ds[i] <= ds[i - 1] + 1
  {
    if |ds| >= 2 {
      var tail := ds[1..];
      RisesEverywhere(tail);
      assert forall i | 0 < i < |tail| :: tail[i] == ds[i + 1] && tail[i - 1] == ds[i];
      assert forall i | 1 < i < |ds| :: ds[i] == tail[i - 1];
    }
  }

  lemma {:induction false} RisesJoin(a: seq<nat>, b: seq<nat>)
    requires Rises(a) && Rises(b) && (a != [] && b != [] ==> b[0] <= a[|a| - 1] + 1)
    ensures Rises(a + b)
  {
    if a == [] {
      assert a + b == b;
    } else {
      assert (a + b)[1..] == a[1..] + b;
      RisesJoin(a[1..], b);
    }
  }

  lemma {:induction false} CapturedRises(f: Forest, d: nat)
    ensures Rises(Depths(f, d)) && (f != [] ==> Depths(f, d) != [] && Depths(f, d)[0] == d)
    decreases f
  {
    if f != [] {
      var inner, tail := Depths(f[0].children, d + 1), Depths(f[1..], d);
      CapturedRises(f[0].children, d + 1);
      CapturedRises(f[1..], d);
      RisesJoin([d], inner);
      var head := [d] + inner;
      if inner != [] {
        AtLeast(f[0].children, d + 1, |inner| - 1);
      }
      assert head[|head| - 1] >= d;
      RisesJoin(head, tail);
    }
  }

  lemma {:induction false} TopLevelAppend(a: seq<nat>, b: seq<nat>)
    ensures TopLevel(a + b) == TopLevel(a) + TopLevel(b)
  {
    if b == [] {
      assert a + b == a;
    } else {
      assert (a + b)[..|a + b| - 1] == a + b[..|b| - 1];
      TopLevelAppend(a, b[..|b| - 1]);
    }
  }

  lemma {:induction false} NoneTopLevel(ds: seq<nat>)
    requires forall i | 0 <= i < |ds| :: ds[i] != 0
    ensures TopLevel(ds) == 0
  {
    if ds != [] {
      NoneTopLevel(ds[..|ds| - 1]);
    }
  }

  lemma {:induction false} CountsTopLevel(f: Forest)
    ensures TopLevel(Depths(f, 0)) == |f|
    decreases f
  {
    if f != [] {
      var inner, tail := Depths(f[0].children, 1), Depths(f[1..], 0);
      forall i | 0 <= i < |inner|
        ensures inner[i] != 0
      {
        AtLeast(f[0].children, 1, i);
      }
      NoneTopLevel(inner);
      CountsTopLevel(f[1..]);
      assert [0][..0] == [];
      TopLevelAppend([0], inner);
      TopLevelAppend([0] + inner, tail);
    }
  }

  /** What is captured from any schema passes the transport checks. */
  lemma CapturedIsValid(f: Forest)
    ensures ValidDepths(Depths(f, 0)) && TopLevel(Depths(f, 0)) == |f|
  {
    CapturedRises(f, 0);
    RisesEverywhere(Depths(f, 0));
    CountsTopLevel(f);
  }

  /** Reads the fields of depth `d` off the front of a depth sequence. */
  function Parse(ds: seq<nat>, d: nat): (r: (Forest, seq<nat>))
    ensures |r.1| <= |ds|
    decreases |ds|
  {
    if ds == [] || ds[0] != d then ([], ds)
    else
      var (children, after) := Parse(ds[1..], d + 1);
      var (siblings, rest) := Parse(after, d);
      ([Field(0, children)] + siblings, rest)
  }

  lemma {:induction false} ParseReads(ds: seq<nat>, d: nat)
    requires Rises(ds) && (ds != [] ==> ds[0] <= d)
    ensures Depths(Parse(ds, d).0, d) + Parse(ds, d).1 == ds && Ends(Parse(ds, d).1, d) && Rises(Parse(ds, d).1)
    decreases |ds|
  {
    if ds != [] && ds[0] == d {
      var inner := Parse(ds[1..], d + 1);
      var outer := Parse(inner.1, d);
      ParseReads(ds[1..], d + 1);
      ParseReads(inner.1, d);
      ParsedField(inner.0, outer.0, d, outer.1);
      assert Parse(ds, d) == ([Field(0, inner.0)] + outer.0, outer.1);
      assert ds == [d] + ds[1..];
    } else {
      assert Depths([], d) + ds == ds;
    }
  }

  lemma ParsedField(children: Forest, siblings: Forest, d: nat, rest: seq<nat>)
    ensures Depths([Field(0, children)] + siblings, d) + rest == [d]
        + (Depths(children, d + 1) + (Depths(siblings, d) + rest))
  {
    var f := [Field(0, children)] + siblings;
    assert f[1..] == siblings;
    AfterFirst(f, d, rest);
  }

  /** Every sequence that passes the checks is the preorder of a schema, and of one shape only. */
  lemma ValidIsCaptured(ds: seq<nat>) returns (f: Forest)
    requires ValidDepths(ds)
    ensures Depths(f, 0) == ds
    ensures forall g | Depths(g, 0) == ds :: SameShape(f, g)
  {
    RisesEverywhere(ds);
    ParseReads(ds, 0);
    f := Parse(ds, 0).0;
    assert Parse(ds, 0).1 == [];
    forall g | Depths(g, 0) == ds
      ensures SameShape(f, g)
    {
      DepthsDetermineShape(f, g);
    }
  }

  // Capturing and applying.

  predicate Stored(f: Forest, n: nat)
    decreases f
  {
    f == [] || (f[0].id < n && Stored(f[0].children, n) && Stored(f[1..], n))
  }

  lemma {:induction false} StoredAt(f: Forest, i: nat, n: nat)
    requires Stored(f, n) && i < |f|
    ensures f[i].id < n && Stored(f[i].children, n)
    decreases f
  {
    if i != 0 {
      StoredAt(f[1..], i - 1, n);
    }
  }

  function FlagOf(flags: seq<bool>, id: nat): bool {
    id < |flags| && flags[id]
  }

  /** Flags of all fields in preorder. */
  function Flags(f: Forest, flags: seq<bool>): seq<bool>
    decreases f
  {
    if f == [] then []
    else [FlagOf(flags, f[0].id)] + Flags(f[0].children, flags) + Flags(f[1..], flags)
  }

  lemma {:induction false} Appended(f: Forest, g: Forest, d: nat, flags: seq<bool>)
    ensures Depths(f + g, d) == Depths(f, d) + Depths(g, d) && Flags(f + g, flags) == Flags(f, flags) + Flags(g, flags)
    ensures Ids(f + g) == Ids(f) + Ids(g)
    decreases f
  {
    if f == [] {
      assert f + g == g;
    } else {
      assert (f + g)[1..] == f[1..] + g && (f + g)[0] == f[0];
      Appended(f[1..], g, d, flags);
    }
  }

  /** One more field of a forest, with everything below it: its depths, */
  lemma DepthStep(f: Forest, i: nat, d: nat)
    requires i < |f|
    ensures Depths(f[..i + 1], d) == Depths(f[..i], d) + ([d] + Depths(f[i].children, d + 1))
  {
    var one := [f[i]];
    assert f[..i + 1] == f[..i] + one && one[1..] == [];
    Appended(f[..i], one, d, []);
    var here := [d] + Depths(f[i].children, d + 1);
    assert Depths(one, d) == here + Depths([], d) && here + [] == here;
  }

  /** its flags, */
  lemma FlagStep(f: Forest, i: nat, flags: seq<bool>)
    requires i < |f|
    ensures Flags(f[..i + 1], flags) == Flags(f[..i], flags) + ([FlagOf(flags, f[i].id)] + Flags(f[i].children, flags))
  {
    var one := [f[i]];
    assert f[..i + 1] == f[..i] + one && one[1..] == [];
    Appended(f[..i], one, 0, flags);
    var here := [FlagOf(flags, f[i].id)] + Flags(f[i].children, flags);
    assert Flags(one, flags) == here + Flags([], flags) && here + [] == here;
  }

  /** and its ids. */
  lemma IdStep(f: Forest, i: nat)
    requires i < |f|
    ensures Ids(f[..i + 1]) == Ids(f[..i]) + ([f[i].id] + Ids(f[i].children))
  {
    var one := [f[i]];
    assert f[..i + 1] == f[..i] + one && one[1..] == [];
    Appended(f[..i], one, 0, []);
    var here := [f[i].id] + Ids(f[i].children);
    assert Ids(one) == here + Ids([]) && here + [] == here;
  }

  lemma PrefixDepths(f: Forest, i: nat, d: nat)
    requires i <= |f|
    ensures Depths(f[..i], d) <= Depths(f, d) && forall k | k in Ids(f[..i]) :: k in Ids(f)
  {
    assert f == f[..i] + f[i..];
    Appended(f[..i], f[i..], d, []);
  }

  predicate Shallow(ds: seq<nat>) {
    forall i | 0 <= i < |ds| :: ds[i] <= MAX_DEPTH
  }

  lemma ShallowJoin(a: seq<nat>, b: seq<nat>)
    ensures Shallow(a + b) <==> Shallow(a) && Shallow(b)
  {
    var all := a + b;
    assert forall i | 0 <= i < |a| :: all[i] == a[i];
    assert forall i | 0 <= i < |b| :: all[|a| + i] == b[i];
  }

  lemma ShallowPrefix(f: Forest, i: nat, d: nat)
    requires i <= |f| && Shallow(Depths(f, d))
    ensures Shallow(Depths(f[..i], d))
  {
    PrefixDepths(f, i, d);
  }

  lemma ShallowStep(f: Forest, i: nat, d: nat)
    requires i < |f| && d <= MAX_DEPTH
    ensures Shallow(Depths(f[..i + 1], d)) <==> Shallow(Depths(f[..i], d)) && Shallow(Depths(f[i].children, d + 1))
  {
    DepthStep(f, i, d);
    ShallowJoin(Depths(f[..i], d), [d] + Depths(f[i].children, d + 1));
    ShallowJoin([d], Depths(f[i].children, d + 1));
  }

  lemma TooDeep(f: Forest)
    requires f != []
    ensures !Shallow(Depths(f, MAX_DEPTH + 1))
  {
    assert Depths(f, MAX_DEPTH + 1)[0] == MAX_DEPTH + 1;
  }

  /** The first `i` fields have been appended to `ds` and `ns`. */
  ghost predicate Taken(f: Forest, i: nat, d: nat, flags: seq<bool>, ds: seq<nat>, ns: seq<bool>, depths: seq<nat>,
      nullable: seq<bool>)
    requires i <= |f|
  {
    Shallow(Depths(f[..i], d)) && depths == ds + Depths(f[..i], d) && nullable == ns + Flags(f[..i], flags)
  }

  lemma TakenStep(f: Forest, i: nat, d: Depth, flags: seq<bool>, ds: seq<nat>, ns: seq<bool>, depths: seq<nat>,
      nullable: seq<bool>)
    requires i < |f| && Taken(f, i, d, flags, ds, ns, depths, nullable) && Shallow(Depths(f[i].children, d + 1))
    ensures Taken(f, i + 1, d, flags, ds, ns, depths + ([d] + Depths(f[i].children, d + 1)),
                  nullable + ([FlagOf(flags, f[i].id)] + Flags(f[i].children, flags)))
  {
    ShallowStep(f, i, d);
    TakenDepths(f, i, d, ds);
    TakenFlags(f, i, flags, ns);
  }

  lemma TakenDepths(f: Forest, i: nat, d: nat, ds: seq<nat>)
    requires i < |f|
    ensures ds + Depths(f[..i + 1], d) == ds + Depths(f[..i], d) + ([d] + Depths(f[i].children, d + 1))
  {
    DepthStep(f, i, d);
    Grouped(ds, Depths(f[..i], d), [d] + Depths(f[i].children, d + 1));
  }

  lemma TakenFlags(f: Forest, i: nat, flags: seq<bool>, ns: seq<bool>)
    requires i < |f|
    ensures ns + Flags(f[..i + 1], flags) == ns + Flags(f[..i], flags)
        + ([FlagOf(flags, f[i].id)] + Flags(f[i].children, flags))
  {
    FlagStep(f, i, flags);
    Grouped(ns, Flags(f[..i], flags), [FlagOf(flags, f[i].id)] + Flags(f[i].children, flags));
  }

  lemma Grouped<T>(a: seq<T>, b: seq<T>, c: seq<T>)
    ensures a + (b + c) == a + b + c
  {
  }

  /** The flattened form being captured. */
  class Captured {
    var depths: seq<nat>
    var nullable: seq<bool>

    constructor ()
      ensures depths == [] && nullable == []
    {
      depths, nullable := [], [];
    }

    /** Appends the fields of a forest; it stops when the schema nests too deeply for a 32-bit depth. */
    method Append(f: Forest, d: Depth, flags: array<bool>) returns (ok: bool)
      requires Stored(f, flags.Length)
      modifies this
      ensures ok <==> Shallow(Depths(f, d))
      ensures ok ==> depths == old(depths) + Depths(f, d) && nullable == old(nullable) + Flags(f, flags[..])
      decreases f
    {
      ghost var stored := flags[..];
      for i := 0 to |f|
        invariant Taken(f, i, d, stored, old(depths), old(nullable), depths, nullable)
      {
        StoredAt(f, i, flags.Length);
        ghost var before := (depths, nullable);
        var inside := AppendField(f[i], d, flags);
        ShallowStep(f, i, d);
        if !inside {
          if Shallow(Depths(f, d)) {
            ShallowPrefix(f, i + 1, d);
          }
          return false;
        }
        TakenStep(f, i, d, stored, old(depths), old(nullable), before.0, before.1);
      }
      assert f[..|f|] == f;
      ok := true;
    }

    method AppendField(field: Field, d: Depth, flags: array<bool>) returns (ok: bool)
      requires field.id < flags.Length && Stored(field.children, flags.Length)
      modifies this
      ensures ok <==> Shallow(Depths(field.children, d + 1))
      ensures ok ==> depths == old(depths) + ([d] + Depths(field.children, d + 1))
      ensures ok ==> nullable == old(nullable) + ([flags[field.id]] + Flags(field.children, flags[..]))
      decreases field
    {
      depths, nullable := depths + [d], nullable + [flags[field.id]];
      if field.children == [] {
        return true;
      }
      if d == MAX_DEPTH {
        TooDeep(field.children);
        return false;
      }
      ok := Append(field.children, d + 1, flags);
    }
  }

  // Applying.

  predicate Distinct(ids: seq<nat>) {
    ids == [] || (ids[0] !in ids[1..] && Distinct(ids[1..]))
  }

  /** `part` stands in `whole` at position `p`. */
  predicate At<T(==)>(whole: seq<T>, p: nat, part: seq<T>) {
    p + |part| <= |whole| && whole[p..p + |part|] == part
  }

  lemma AtJoin<T>(whole: seq<T>, p: nat, a: seq<T>, b: seq<T>)
    ensures At(whole, p, a + b) <==> At(whole, p, a) && At(whole, p + |a|, b)
  {
    if p + |a| + |b| <= |whole| {
      assert whole[p..p + |a + b|] == whole[p..p + |a|] + whole[p + |a|..p + |a| + |b|];
      assert (whole[p..p + |a + b|] == a + b)
        ==> whole[p..p + |a|] == (a + b)[..|a|] && whole[p + |a|..p + |a| + |b|] == (a + b)[|a|..];
    }
  }

  lemma AtPrefix(f: Forest, i: nat, d: nat, depths: seq<nat>, p: nat)
    requires i <= |f|
    ensures At(depths, p, Depths(f, d)) ==> At(depths, p, Depths(f[..i], d))
  {
    assert f == f[..i] + f[i..];
    Appended(f[..i], f[i..], d, []);
    AtJoin(depths, p, Depths(f[..i], d), Depths(f[i..], d));
  }

  predicate Agree(ids: seq<nat>, a: seq<bool>, b: seq<bool>) {
    |a| == |b| && forall k | k in ids && k < |a| :: a[k] == b[k]
  }

  lemma {:induction false} FlagsFrame(f: Forest, a: seq<bool>, b: seq<bool>)
    requires Agree(Ids(f), a, b)
    ensures Flags(f, a) == Flags(f, b)
    decreases f
  {
    if f != [] {
      assert Ids(f) == [f[0].id] + Ids(f[0].children) + Ids(f[1..]);
      assert f[0].id in Ids(f);
      FlagsFrame(f[0].children, a, b);
      FlagsFrame(f[1..], a, b);
    }
  }

  predicate Disjoint(a: seq<nat>, b: seq<nat>) {
    forall k | k in a :: k !in b
  }

  lemma {:induction false} DistinctSplit(a: seq<nat>, b: seq<nat>)
    requires Distinct(a + b)
    ensures Distinct(a) && Distinct(b) && Disjoint(a, b)
    decreases |a|
  {
    if a == [] {
      assert a + b == b;
    } else {
      assert (a + b)[1..] == a[1..] + b;
      DistinctSplit(a[1..], b);
      assert a == [a[0]] + a[1..];
    }
  }

  /** The `i`th field shares no flag with the fields before it, nor with what is below it. */
  lemma FieldDisjoint(f: Forest, i: nat)
    requires i < |f| && Distinct(Ids(f))
    ensures var below := Ids(f[i].children);
            && Disjoint(Ids(f[..i]), [f[i].id] + below) && Distinct(below) && f[i].id !in below
  {
    DistinctPrefix(f, i + 1);
    IdStep(f, i);
    DistinctThree(Ids(f[..i]), f[i].id, Ids(f[i].children));
  }

  lemma DistinctThree(prefix: seq<nat>, id: nat, below: seq<nat>)
    requires Distinct(prefix + ([id] + below))
    ensures Disjoint(prefix, [id] + below) && Distinct(below) && id !in below
  {
    DistinctSplit(prefix, [id] + below);
    DistinctSplit([id], below);
    assert id in [id];
  }

  lemma DistinctPrefix(f: Forest, i: nat)
    requires i <= |f| && Distinct(Ids(f))
    ensures Distinct(Ids(f[..i]))
  {
    assert f == f[..i] + f[i..];
    Appended(f[..i], f[i..], 0, []);
    DistinctSplit(Ids(f[..i]), Ids(f[i..]));
  }

  /** The first `i` fields have been given the flags found from `position` to `next`. */
  predicate Applied(f: Forest, i: nat, d: nat, depths: seq<nat>, nullable: seq<bool>, flags: seq<bool>, position: nat,
      next: nat)
    requires i <= |f|
  {
    && At(depths, position, Depths(f[..i], d)) && next == position + |Depths(f[..i], d)|
    && At(nullable, position, Flags(f[..i], flags)) && |Flags(f[..i], flags)| == |Depths(f[..i], d)|
  }

  lemma AppliedStep(f: Forest, i: nat, d: nat, depths: seq<nat>, nullable: seq<bool>, before: seq<bool>,
      after: seq<bool>, position: nat, next: nat)
    requires i < |f| && Distinct(Ids(f)) && Stored(f, |after|)
        && Applied(f, i, d, depths, nullable, before, position, next)
    requires |before| == |after| && forall k | 0 <= k < |before|
        && k !in [f[i].id] + Ids(f[i].children) :: after[k] == before[k]
    requires f[i].id < |after| && At(depths, next, [d] + Depths(f[i].children, d + 1))
    requires At(nullable, next, [after[f[i].id]] + Flags(f[i].children, after))
        && |Flags(f[i].children, after)| == |Depths(f[i].children, d + 1)|
    ensures Applied(f, i + 1, d, depths, nullable, after, position, next + 1 + |Depths(f[i].children, d + 1)|)
  {
    FieldDisjoint(f, i);
    FlagsFrame(f[..i], before, after);
    DepthStep(f, i, d);
    FlagStep(f, i, after);
    AtJoin(depths, position, Depths(f[..i], d), [d] + Depths(f[i].children, d + 1));
    AtJoin(nullable, position, Flags(f[..i], after), [after[f[i].id]] + Flags(f[i].children, after));
  }

  /** A field that does not fit keeps the whole forest from fitting. */
  lemma Misfit(f: Forest, i: nat, d: nat, depths: seq<nat>, position: nat)
    requires i < |f| && !At(depths, position + |Depths(f[..i], d)|, [d] + Depths(f[i].children, d + 1))
    ensures !At(depths, position, Depths(f, d))
  {
    AtPrefix(f, i + 1, d, depths, position);
    DepthStep(f, i, d);
    AtJoin(depths, position, Depths(f[..i], d), [d] + Depths(f[i].children, d + 1));
  }

  /** Overwrites the flags of a forest from `position` on, as far as the depths agree with its shape. */
  method Apply(f: Forest, d: Depth, depths: seq<nat>, nullable: seq<bool>, flags: array<bool>, position: nat)
    returns (ok: bool, next: nat)
    requires Stored(f, flags.Length) && Distinct(Ids(f)) && |depths| == |nullable| && Shallow(depths)
    modifies flags
    ensures ok <==> At(depths, position, Depths(f, d))
    ensures ok ==>
        next == position + |Depths(f, d)| && At(nullable, position, Flags(f, flags[..]))
        && |Flags(f, flags[..])| == |Depths(f, d)|
    ensures forall k | 0 <= k < flags.Length && k !in Ids(f) :: flags[k] == old(flags[k])
    decreases f
  {
    next := position;
    if position > |depths| {
      return false, next;
    }
    for i := 0 to |f|
      invariant Applied(f, i, d, depths, nullable, flags[..], position, next)
      invariant forall k | 0 <= k < flags.Length && k !in Ids(f[..i]) :: flags[k] == old(flags[k])
    {
      ghost var before, here := flags[..], next;
      StoredAt(f, i, flags.Length);
      FieldDisjoint(f, i);
      var inside;
      inside, next := ApplyField(f[i], d, depths, nullable, flags, next);
      IdStep(f, i);
      PrefixDepths(f, i + 1, d);
      if !inside {
        Misfit(f, i, d, depths, position);
        return false, next;
      }
      AppliedStep(f, i, d, depths, nullable, before, flags[..], position, here);
    }
    assert f[..|f|] == f;
    ok := true;
  }

  method ApplyField(field: Field, d: Depth, depths: seq<nat>, nullable: seq<bool>, flags: array<bool>, position: nat)
    returns (ok: bool, next: nat)
    requires field.id < flags.Length && Stored(field.children, flags.Length) && Distinct(Ids(field.children))
        && field.id !in Ids(field.children)
    requires |depths| == |nullable| && Shallow(depths)
    modifies flags
    ensures ok <==> At(depths, position, [d] + Depths(field.children, d + 1))
    ensures ok ==> next == position + 1 + |Depths(field.children, d + 1)|
    ensures ok ==> At(nullable, position, [flags[field.id]] + Flags(field.children, flags[..]))
    ensures ok ==> |Flags(field.children, flags[..])| == |Depths(field.children, d + 1)|
    ensures forall k | 0 <= k < flags.Length && k !in [field.id] + Ids(field.children) :: flags[k] == old(flags[k])
    decreases field
  {
    AtJoin(depths, position, [d], Depths(field.children, d + 1));
    if position >= |depths| || depths[position] != d {
      return false, position;
    }
    flags[field.id] := nullable[position];
    next := position + 1;
    if field.children == [] {
      return true, next;
    }
    if d == MAX_DEPTH {
      DeepNowhere(field.children, depths, next);
      return false, next;
    }
    ok, next := Apply(field.children, d + 1, depths, nullable, flags, next);
    AtJoin(nullable, position, [flags[field.id]], Flags(field.children, flags[..]));
  }

  lemma DeepNowhere(f: Forest, depths: seq<nat>, p: nat)
    requires f != [] && Shallow(depths)
    ensures !At(depths, p, Depths(f, MAX_DEPTH + 1))
  {
    TooDeep(f);
  }

  /** Applies captured state to a schema: it succeeds exactly on the captured shape, and then every flag is as
      captured. */
  method ApplyAll(f: Forest, depths: seq<nat>, nullable: seq<bool>, flags: array<bool>) returns (ok: bool)
    requires Stored(f, flags.Length) && Distinct(Ids(f)) && Shallow(depths)
    modifies flags
    ensures ok <==> |depths| == |nullable| && depths == Depths(f, 0)
    ensures ok ==> Flags(f, flags[..]) == nullable
    ensures forall k | 0 <= k < flags.Length && k !in Ids(f) :: flags[k] == old(flags[k])
  {
    if |depths| != |nullable| {
      return false;
    }
    var applied, position := Apply(f, 0, depths, nullable, flags, 0);
    ok := applied && position == |depths|;
    assert At(depths, 0, Depths(f, 0)) && |Depths(f, 0)| == |depths| <==> depths == Depths(f, 0);
  }

  /** Captures the nullability of one schema and applies it to another: this succeeds exactly when they have the same
      shape (and no field is too deep to be captured), and then every flag of the second is that of the first. */
  method Transfer(from: Forest, fromFlags: array<bool>, to: Forest, toFlags: array<bool>) returns (ok: bool)
    requires Stored(from, fromFlags.Length) && Stored(to, toFlags.Length) && Distinct(Ids(to)) && fromFlags != toFlags
    modifies toFlags
    ensures ok <==> Shallow(Depths(from, 0)) && SameShape(from, to)
    ensures ok ==> Flags(to, toFlags[..]) == Flags(from, fromFlags[..])
    ensures forall k | 0 <= k < toFlags.Length && k !in Ids(to) :: toFlags[k] == old(toFlags[k])
  {
    var captured := new Captured();
    var inRange := captured.Append(from, 0, fromFlags);
    if !inRange {
      return false;
    }
    DepthsDetermineShape(from, to);
    FlagCount(from, 0, fromFlags[..]);
    ok := ApplyAll(to, captured.depths, captured.nullable, toFlags);
  }

  lemma {:induction false} FlagCount(f: Forest, d: nat, flags: seq<bool>)
    ensures |Flags(f, flags)| == |Depths(f, d)|
    decreases f
  {
    if f != [] {
      FlagCount(f[0].children, d + 1, flags);
      FlagCount(f[1..], d, flags);
    }
  }
}
