/** Selection vectors of the MERGE sink: classification of a chunk and dispatch of its rows to actions. */
module MergeSelection {
  import opened MergeRows

  type Sel = seq<nat>

  predicate InRange(chunk: seq<Input>, sel: Sel) {
    forall i | 0 <= i < |sel| :: sel[i] < |chunk|
  }

  /** The selected rows on which `cond` has the value `want`, in order. */
  function Select(chunk: seq<Input>, cond: Input -> bool, want: bool, sel: Sel): (r: Sel)
    requires InRange(chunk, sel)
    ensures InRange(chunk, r) && |r| <= |sel|
  {
    if sel == [] then []
    else
      var last := sel[|sel| - 1];
      Select(chunk, cond, want, sel[..|sel| - 1]) + if cond(chunk[last]) == want then [last] else []
  }

  lemma SelectStep(chunk: seq<Input>, cond: Input -> bool, want: bool, sel: Sel, i: nat)
    requires InRange(chunk, sel) && i < |sel|
    ensures Select(chunk, cond, want, sel[..i + 1])
            == Select(chunk, cond, want, sel[..i]) + if cond(chunk[sel[i]]) == want then [sel[i]] else []
  {
    assert sel[..i + 1][..i] == sel[..i];
  }

  lemma {:induction false} SelectSplits(chunk: seq<Input>, cond: Input -> bool, sel: Sel)
    requires InRange(chunk, sel)
    ensures |Select(chunk, cond, true, sel)| + |Select(chunk, cond, false, sel)| == |sel|
  {
    if sel != [] {
      SelectSplits(chunk, cond, sel[..|sel| - 1]);
    }
  }

  method SetIndex(sel: array<nat>, n: nat, row: nat)
    requires n < sel.Length
    modifies sel
    ensures sel[..n + 1] == old(sel[..n]) + [row]
    ensures forall j | n < j < sel.Length :: sel[j] == old(sel[j])
  {
    sel[n] := row;
  }

  /** Splits `sel[..count]` by a condition. The rejected rows may be written over the selection being
      read: row `i` is read before anything is written at or beyond `i`. */
  method SelectExpression(chunk: seq<Input>, cond: Input -> bool, trueSel: array<nat>, falseSel: array<nat>,
                          sel: array<nat>, count: nat) returns (accepted: nat)
    requires count <= sel.Length && count <= trueSel.Length && count <= falseSel.Length
    requires trueSel != falseSel && trueSel != sel
    requires InRange(chunk, sel[..count])
    modifies trueSel, falseSel
    ensures accepted <= count
    ensures trueSel[..accepted] == Select(chunk, cond, true, old(sel[..count]))
    ensures falseSel[..count - accepted] == Select(chunk, cond, false, old(sel[..count]))
    ensures falseSel != sel ==> sel[..] == old(sel[..])
  {
    var rejected := 0;
    accepted := 0;
    ghost var rows := sel[..count];
    for i := 0 to count
      invariant accepted + rejected == i
      invariant trueSel[..accepted] == Select(chunk, cond, true, rows[..i])
      invariant falseSel[..rejected] == Select(chunk, cond, false, rows[..i])
      invariant forall j | i <= j < count :: sel[j] == rows[j]
      invariant falseSel != sel ==> sel[..] == old(sel[..])
    {
      SelectStep(chunk, cond, true, rows, i);
      SelectStep(chunk, cond, false, rows, i);
      var row := sel[i];
      if cond(chunk[row]) {
        SetIndex(trueSel, accepted, row);
        accepted := accepted + 1;
      } else {
        SetIndex(falseSel, rejected, row);
        rejected := rejected + 1;
      }
    }
    assert rows[..count] == rows;
  }

  /** The rows of one class, in chunk order. */
  function ClassRows(chunk: seq<Input>, hasMarker: bool, c: Class, n: nat): (r: Sel)
    requires n <= |chunk|
    ensures InRange(chunk, r) && |r| <= n
    ensures forall i | 0 <= i < |r| :: r[i] < n
  {
    if n == 0 then []
    else ClassRows(chunk, hasMarker, c, n - 1) + if Classify(hasMarker, chunk[n - 1]) == c then [n - 1] else []
  }

  method ComputeMatches(chunk: seq<Input>, hasMarker: bool, matched: array<nat>, byTarget: array<nat>,
      bySource: array<nat>)
    returns (m: nat, t: nat, s: nat)
    requires |chunk| <= matched.Length && |chunk| <= byTarget.Length && |chunk| <= bySource.Length
    requires matched != byTarget && byTarget != bySource && matched != bySource
    modifies matched, byTarget, bySource
    ensures m + t + s == |chunk|
    ensures matched[..m] == ClassRows(chunk, hasMarker, Matched, |chunk|)
    ensures byTarget[..t] == ClassRows(chunk, hasMarker, NotMatchedByTarget, |chunk|)
    ensures bySource[..s] == ClassRows(chunk, hasMarker, NotMatchedBySource, |chunk|)
  {
    m, t, s := 0, 0, 0;
    for i := 0 to |chunk|
      invariant m + t + s == i
      invariant matched[..m] == ClassRows(chunk, hasMarker, Matched, i)
      invariant byTarget[..t] == ClassRows(chunk, hasMarker, NotMatchedByTarget, i)
      invariant bySource[..s] == ClassRows(chunk, hasMarker, NotMatchedBySource, i)
    {
      if hasMarker {
        if !chunk[i].sourceValid {
          SetIndex(bySource, s, i);
          s := s + 1;
        } else if chunk[i].rowId.None? {
          SetIndex(byTarget, t, i);
          t := t + 1;
        } else {
          SetIndex(matched, m, i);
          m := m + 1;
        }
      } else {
        if chunk[i].rowId.Some? {
          SetIndex(matched, m, i);
          m := m + 1;
        } else {
          SetIndex(byTarget, t, i);
          t := t + 1;
        }
      }
    }
  }

  /** Each class keeps chunk order and holds exactly its rows, so the three selections partition the chunk. */
  lemma {:induction false} ClassesPartition(chunk: seq<Input>, hasMarker: bool, c: Class, n: nat)
    requires n <= |chunk|
    ensures var rows := ClassRows(chunk, hasMarker, c, n);
            && (forall i, j | 0 <= i < j < |rows| :: rows[i] < rows[j])
            && (forall r: nat :: r in rows <==> r < n && Classify(hasMarker, chunk[r]) == c)
  {
    if n != 0 {
      ClassesPartition(chunk, hasMarker, c, n - 1);
    }
  }

  // Dispatch to the first action that applies.

  function Remaining(actions: seq<Action>, k: nat): Input -> bool
    requires k <= |actions|
  {
    r => Unclaimed(actions, k, r)
  }

  function Claims(actions: seq<Action>, k: nat): Input -> bool
    requires k < |actions|
  {
    r => FirstMatch(actions, k, r)
  }

  lemma {:induction false} SelectTwice(chunk: seq<Input>, first: Input -> bool, second: Input -> bool, want: bool,
                                       both: Input -> bool, sel: Sel)
    requires InRange(chunk, sel)
    requires forall r :: both(r) <==> first(r) && second(r) == want
    ensures Select(chunk, second, want, Select(chunk, first, true, sel)) == Select(chunk, both, true, sel)
  {
    if sel != [] {
      var init, last := sel[..|sel| - 1], sel[|sel| - 1];
      SelectTwice(chunk, first, second, want, both, init);
      var kept := Select(chunk, first, true, init);
      if first(chunk[last]) {
        assert (kept + [last])[..|kept|] == kept;
      } else {
        assert kept + [] == kept;
      }
    }
  }

  /** After the first `k` actions, splitting what remains by the next condition gives the rows that action
      claims first, and what remains after it. */
  lemma DispatchStep(chunk: seq<Input>, actions: seq<Action>, k: nat, sel: Sel)
    requires InRange(chunk, sel) && k < |actions| && actions[k].condition.Some?
    ensures var rest := Select(chunk, Remaining(actions, k), true, sel);
            && Select(chunk, actions[k].condition.value, true, rest) == Select(chunk, Claims(actions, k), true, sel)
            && Select(chunk, actions[k].condition.value, false, rest) ==
              Select(chunk, Remaining(actions, k + 1), true, sel)
  {
    SelectTwice(chunk, Remaining(actions, k), actions[k].condition.value, true, Claims(actions, k), sel);
    SelectTwice(chunk, Remaining(actions, k), actions[k].condition.value, false, Remaining(actions, k + 1), sel);
  }

  lemma {:induction false} SelectSame(chunk: seq<Input>, p: Input -> bool, q: Input -> bool, sel: Sel)
    requires InRange(chunk, sel) && forall r :: p(r) <==> q(r)
    ensures Select(chunk, p, true, sel) == Select(chunk, q, true, sel)
  {
    if sel != [] {
      SelectSame(chunk, p, q, sel[..|sel| - 1]);
    }
  }

  lemma {:induction false} SelectNone(chunk: seq<Input>, p: Input -> bool, sel: Sel)
    requires InRange(chunk, sel) && forall r :: !p(r)
    ensures Select(chunk, p, true, sel) == []
  {
    if sel != [] {
      SelectNone(chunk, p, sel[..|sel| - 1]);
    }
  }

  lemma {:induction false} SelectAll(chunk: seq<Input>, p: Input -> bool, sel: Sel)
    requires InRange(chunk, sel) && forall r :: p(r)
    ensures Select(chunk, p, true, sel) == sel
  {
    if sel != [] {
      SelectAll(chunk, p, sel[..|sel| - 1]);
    }
  }

  /** An action without a condition claims everything that remains. */
  lemma DispatchRest(chunk: seq<Input>, actions: seq<Action>, k: nat, sel: Sel)
    requires InRange(chunk, sel) && k < |actions| && actions[k].condition.None?
    ensures Select(chunk, Remaining(actions, k), true, sel) == Select(chunk, Claims(actions, k), true, sel)
    ensures Select(chunk, Remaining(actions, k + 1), true, sel) == []
  {
    SelectSame(chunk, Remaining(actions, k), Claims(actions, k), sel);
    assert forall r :: !Applies(actions[k], r) ==> false;
    SelectNone(chunk, Remaining(actions, k + 1), sel);
  }

  /** Rows that no earlier action left over are claimed by no later one. */
  lemma {:induction false} NothingLeft(chunk: seq<Input>, actions: seq<Action>, k: nat, j: nat, sel: Sel)
    requires InRange(chunk, sel) && k <= j < |actions|
    requires Select(chunk, Remaining(actions, k), true, sel) == []
    ensures Select(chunk, Claims(actions, j), true, sel) == []
  {
    if sel != [] {
      NothingLeft(chunk, actions, k, j, sel[..|sel| - 1]);
      var last := chunk[sel[|sel| - 1]];
      assert !Remaining(actions, k)(last);
    }
  }
}
