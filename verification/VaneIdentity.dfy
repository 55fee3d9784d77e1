/** Vane task identities: an attempt name is a logical task name, a dot and a number. */
module VaneIdentity {
  import opened Bytes

  predicate Digits(s: string) {
    forall i | 0 <= i < |s| :: '0' <= s[i] <= '9'
  }

  /** A decimal number without leading zeros. */
  predicate Canonical(s: string) {
    s != "" && !(|s| > 1 && s[0] == '0') && Digits(s)
  }

  function FirstDot(s: string): (i: nat)
    ensures i <= |s| && (forall j | 0 <= j < i :: s[j] != '.') && (i < |s| ==> s[i] == '.')
  {
    if s == "" || s[0] == '.' then 0 else 1 + FirstDot(s[1..])
  }

  /** Splitting at dots, reading pieces until the input is exhausted: a final empty piece is not reported. */
  function Split(s: string): seq<string>
    decreases |s|
  {
    if s == "" then []
    else
      var i := FirstDot(s);
      if i == |s| then [s] else [s[..i]] + Split(s[i + 1..])
  }

  function LogicalTask(query: string, attempt: string): Option<string> {
    var prefix := query + ".";
    if query == "" || !(prefix <= attempt) then None
    else
      var parts := Split(attempt[|prefix|..]);
      if |parts| != 3 || !Canonical(parts[0]) || !Canonical(parts[1]) || !Canonical(parts[2]) then None
      else Some(prefix + parts[0] + "." + parts[1])
  }

  function AttemptName(query: string, fragment: string, partition: string, attempt: string): string {
    query + "." + (fragment + "." + (partition + "." + attempt))
  }

  function TaskName(query: string, fragment: string, partition: string): string {
    query + "." + fragment + "." + partition
  }

  lemma NoDots(s: string)
    requires Digits(s)
    ensures '.' !in s
  {
  }

  /** A prefix without dots followed by a dot ends at the first dot. */
  lemma {:induction false} FirstDotAfter(s: string, rest: string)
    requires '.' !in s
    ensures FirstDot(s + "." + rest) == |s|
    decreases |s|
  {
    if s != "" {
      assert (s + "." + rest)[1..] == s[1..] + "." + rest;
      FirstDotAfter(s[1..], rest);
    }
  }

  lemma {:induction false} FirstDotNone(s: string)
    requires '.' !in s
    ensures FirstDot(s) == |s|
  {
    if s != "" {
      FirstDotNone(s[1..]);
    }
  }

  lemma SplitHead(s: string, rest: string)
    requires '.' !in s
    ensures Split(s + "." + rest) == [s] + Split(rest)
  {
    FirstDotAfter(s, rest);
    var all := s + "." + rest;
    assert all[..|s|] == s && all[|s| + 1..] == rest;
  }

  lemma SplitLast(s: string)
    requires '.' !in s && s != ""
    ensures Split(s) == [s]
  {
    FirstDotNone(s);
  }

  /** Every well-formed attempt name belongs to the logical task of its fragment and partition. */
  lemma WellFormedAttempt(query: string, f: string, p: string, a: string)
    requires query != "" && Canonical(f) && Canonical(p) && Canonical(a)
    ensures LogicalTask(query, AttemptName(query, f, p, a)) == Some(TaskName(query, f, p))
  {
    var prefix, name := query + ".", AttemptName(query, f, p, a);
    var rest := f + "." + (p + "." + a);
    assert name == prefix + rest && name[|prefix|..] == rest;
    NoDots(f);
    NoDots(p);
    NoDots(a);
    SplitHead(f, p + "." + a);
    SplitHead(p, a);
    SplitLast(a);
    assert Split(rest) == [f, p, a];
  }

  lemma FirstPiece(s: string) returns (rest: string)
    requires |Split(s)| >= 2
    ensures s == Split(s)[0] + "." + rest && Split(rest) == Split(s)[1..]
  {
    var i := FirstDot(s);
    rest := s[i + 1..];
    assert s == s[..i] + "." + rest;
  }

  lemma LastPiece(s: string)
    requires |Split(s)| == 1
    ensures s == Split(s)[0] || s == Split(s)[0] + "."
  {
    var i := FirstDot(s);
    if i < |s| {
      assert Split(s[i + 1..]) == [];
      assert s == s[..i] + "." + s[i + 1..];
    }
  }

  /** The pieces of a name with three pieces, up to one trailing dot. */
  lemma ThreePieces(s: string)
    requires |Split(s)| == 3
    ensures var parts := Split(s);
            var whole := parts[0] + "." + (parts[1] + "." + parts[2]);
            s == whole || s == whole + "."
  {
    var parts := Split(s);
    var t := FirstPiece(s);
    var u := FirstPiece(t);
    LastPiece(u);
    if u != parts[2] {
      Dotted(parts[0], parts[1], parts[2]);
    }
  }

  lemma Dotted(x: string, y: string, z: string)
    ensures x + "." + (y + "." + (z + ".")) == x + "." + (y + "." + z) + "."
  {
  }

  /** `attempt` is the query and three canonical numbers separated by dots, possibly with one more dot at the end. */
  predicate Names(query: string, attempt: string, f: string, p: string, a: string) {
    && Canonical(f) && Canonical(p) && Canonical(a)
    && (attempt == AttemptName(query, f, p, a) || attempt == AttemptName(query, f, p, a) + ".")
  }

  lemma AcceptedNames(query: string, attempt: string) returns (f: string, p: string, a: string)
    requires LogicalTask(query, attempt).Some?
    ensures Names(query, attempt, f, p, a) && LogicalTask(query, attempt) == Some(TaskName(query, f, p))
  {
    var prefix := query + ".";
    var rest := attempt[|prefix|..];
    f, p, a := Split(rest)[0], Split(rest)[1], Split(rest)[2];
    assert attempt == prefix + rest;
    WholeName(query, f, p, a);
    ThreePieces(rest);
    if rest == f + "." + (p + "." + a) {
      assert attempt == AttemptName(query, f, p, a);
    } else {
      assert attempt == AttemptName(query, f, p, a) + ".";
    }
  }

  lemma WholeName(query: string, f: string, p: string, a: string)
    ensures query + "." + (f + "." + (p + "." + a)) == AttemptName(query, f, p, a)
    ensures query + "." + (f + "." + (p + "." + a) + ".") == AttemptName(query, f, p, a) + "."
  {
  }

  /** An attempt name is accepted exactly when it has the form `Names` describes. */
  lemma AcceptedAttempts(query: string, attempt: string)
    requires query != ""
    ensures LogicalTask(query, attempt).Some? <==> exists f, p, a :: Names(query, attempt, f, p, a)
  {
    if LogicalTask(query, attempt).Some? {
      var f, p, a := AcceptedNames(query, attempt);
    }
    forall f, p, a | Names(query, attempt, f, p, a)
      ensures LogicalTask(query, attempt).Some?
    {
      WellFormedAttempt(query, f, p, a);
      TrailingDotAccepted(query, f, p, a);
    }
  }

  /** A trailing dot is not part of any piece: the name is accepted and denotes the same logical task. */
  lemma TrailingDotAccepted(query: string, f: string, p: string, a: string)
    requires query != "" && Canonical(f) && Canonical(p) && Canonical(a)
    ensures LogicalTask(query, AttemptName(query, f, p, a) + ".") == Some(TaskName(query, f, p))
  {
    var prefix, name := query + ".", AttemptName(query, f, p, a) + ".";
    var rest := f + "." + (p + "." + (a + "." + ""));
    assert name == prefix + rest && name[|prefix|..] == rest;
    NoDots(f);
    NoDots(p);
    NoDots(a);
    SplitHead(f, p + "." + (a + "." + ""));
    SplitHead(p, a + "." + "");
    SplitHead(a, "");
    assert Split(rest) == [f, p, a];
  }

  /** Logical task names identify fragment and partition. */
  lemma TaskNameInjective(query: string, f1: string, p1: string, f2: string, p2: string)
    requires Canonical(f1) && Canonical(p1) && Canonical(f2) && Canonical(p2)
    ensures TaskName(query, f1, p1) == TaskName(query, f2, p2) <==> f1 == f2 && p1 == p2
  {
    if TaskName(query, f1, p1) == TaskName(query, f2, p2) {
      var prefix := query + ".";
      var r1, r2 := f1 + "." + p1, f2 + "." + p2;
      assert TaskName(query, f1, p1) == prefix + r1 && TaskName(query, f2, p2) == prefix + r2;
      assert (prefix + r1)[|prefix|..] == r1 && (prefix + r2)[|prefix|..] == r2;
      NoDots(f1);
      NoDots(f2);
      FirstDotAfter(f1, p1);
      FirstDotAfter(f2, p2);
      assert r1[..|f1|] == f1 && r2[..|f2|] == f2;
      assert r1[|f1| + 1..] == p1 && r2[|f2| + 1..] == p2;
    }
  }
}
