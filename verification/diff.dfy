/** The line diff behind a delta report. */
module Diff {
  import opened Options

  type Line = string

  datatype DiffOp = Added(index: nat, text: Line) | Removed(index: nat, text: Line)

  // ----- Reference: longest common subsequences -----

  predicate Subsequence(x: seq<Line>, s: seq<Line>) {
    if x == [] then true
    else if s == [] then false
    else (x[0] == s[0] && Subsequence(x[1..], s[1..])) || Subsequence(x, s[1..])
  }

  ghost predicate Common(x: seq<Line>, a: seq<Line>, b: seq<Line>) {
    Subsequence(x, a) && Subsequence(x, b)
  }

  /** The recurrence the table is filled by. */
  function Lcs(a: seq<Line>, b: seq<Line>): nat
    decreases |a| + |b|
  {
    if a == [] || b == [] then 0
    else if a[0] == b[0] then Lcs(a[1..], b[1..]) + 1
    else Max(Lcs(a[1..], b), Lcs(a, b[1..]))
  }

  function Max(x: nat, y: nat): nat {
    if x >= y then x else y
  }

  // ----- Reference: what an edit script means -----

  /**
    * Apply a script to `before` without knowing the new text: unlisted lines are copied until the next
    * operation's index is reached, in the old text for a removal and in the new text for an addition.
    * A script whose indices or texts do not fit is rejected. `i` lines of `before` are already
    * consumed and `j` lines of the result already produced.
    */
  function Patch(before: seq<Line>, i: nat, j: nat, ops: seq<DiffOp>): Option<seq<Line>>
    requires i <= |before|
    decreases |before| - i, |ops|
  {
    if ops == [] then Some(before[i..])
    else match ops[0]
      case Removed(index, text) =>
        if i == index then
          if i < |before| && before[i] == text then Patch(before, i + 1, j, ops[1..]) else None
        else if i < |before| then Copy(before[i], Patch(before, i + 1, j + 1, ops)) else None
      case Added(index, text) =>
        if j == index then Copy(text, Patch(before, i, j + 1, ops[1..]))
        else if i < |before| then Copy(before[i], Patch(before, i + 1, j + 1, ops)) else None
  }

  function Copy(line: Line, rest: Option<seq<Line>>): Option<seq<Line>> {
    match rest
    case Some(lines) => Some([line] + lines)
    case None => None
  }

  // ----- The script the source emits -----

  function Script(before: seq<Line>, after: seq<Line>, i: nat, j: nat): seq<DiffOp>
    requires i <= |before| && j <= |after|
    decreases |before| - i + |after| - j
  {
    if i < |before| && j < |after| then
      if before[i] == after[j] then Script(before, after, i + 1, j + 1)
      else if Lcs(before[i + 1..], after[j..]) >= Lcs(before[i..], after[j + 1..])
      then [Removed(i, before[i])] + Script(before, after, i + 1, j)
      else [Added(j, after[j])] + Script(before, after, i, j + 1)
    else if i < |before| then [Removed(i, before[i])] + Script(before, after, i + 1, j)
    else if j < |after| then [Added(j, after[j])] + Script(before, after, i, j + 1)
    else []
  }

  method DiffLines(before: seq<Line>, after: seq<Line>) returns (ops: seq<DiffOp>)
    ensures ops == Script(before, after, 0, 0)
  {
    hide Lcs, Script;
    var n, m := |before|, |after|;
    ScriptStep(before, after, n, m);
    if n == 0 && m == 0 {
      return [];
    }
    var lcs := LcsTable(before, after);

    ops := [];
    var i, j := 0, 0;
    while i < n && j < m
      invariant 0 <= i <= n && 0 <= j <= m
      invariant Script(before, after, 0, 0) == ops + Script(before, after, i, j)
      invariant forall r, c :: 0 <= r <= n && 0 <= c <= m ==> lcs[r, c] == Lcs(before[r..], after[c..])
      decreases n - i + m - j
    {
      ScriptStep(before, after, i, j);
      assert lcs[i + 1, j] == Lcs(before[i + 1..], after[j..]);
      assert lcs[i, j + 1] == Lcs(before[i..], after[j + 1..]);
      if before[i] == after[j] {
        i, j := i + 1, j + 1;
      } else if lcs[i + 1, j] >= lcs[i, j + 1] {
        Append(ops, Removed(i, before[i]), Script(before, after, i + 1, j));
        ops := ops + [Removed(i, before[i])];
        i := i + 1;
      } else {
        Append(ops, Added(j, after[j]), Script(before, after, i, j + 1));
        ops := ops + [Added(j, after[j])];
        j := j + 1;
      }
    }
    while i < n
      invariant 0 <= i <= n && 0 <= j <= m && (i == n || j == m)
      invariant Script(before, after, 0, 0) == ops + Script(before, after, i, j)
    {
      ScriptStep(before, after, i, j);
      Append(ops, Removed(i, before[i]), Script(before, after, i + 1, j));
      ops := ops + [Removed(i, before[i])];
      i := i + 1;
    }
    while j < m
      invariant i == n && 0 <= j <= m
      invariant Script(before, after, 0, 0) == ops + Script(before, after, i, j)
    {
      ScriptStep(before, after, i, j);
      Append(ops, Added(j, after[j]), Script(before, after, i, j + 1));
      ops := ops + [Added(j, after[j])];
      j := j + 1;
    }
  }

  /** The table of LCS lengths of all suffix pairs, filled from the bottom right corner. */
  method LcsTable(before: seq<Line>, after: seq<Line>) returns (lcs: array2<nat>)
    ensures fresh(lcs) && lcs.Length0 == |before| + 1 && lcs.Length1 == |after| + 1
    ensures forall i, j :: 0 <= i <= |before| && 0 <= j <= |after| ==> lcs[i, j] == Lcs(before[i..], after[j..])
  {
    var n, m := |before|, |after|;
    lcs := new nat[n + 1, m + 1]((_, _) => 0);
    for i := n downto 0
      invariant forall r, c :: 0 <= r <= n && 0 <= c <= m && (i <= r || c == m) ==>
                  lcs[r, c] == Lcs(before[r..], after[c..])
    {
      for j := m downto 0
        invariant forall r, c :: 0 <= r <= n && 0 <= c <= m && (i < r || c == m || (r == i && j <= c)) ==>
                    lcs[r, c] == Lcs(before[r..], after[c..])
      {
        assert before[i..][1..] == before[i + 1..] && after[j..][1..] == after[j + 1..];
        lcs[i, j] := if before[i] == after[j] then lcs[i + 1, j + 1] + 1 else Max(lcs[i + 1, j], lcs[i, j + 1]);
      }
    }
  }

  /** The first operation of the remaining script. */
  lemma ScriptStep(before: seq<Line>, after: seq<Line>, i: nat, j: nat)
    requires i <= |before| && j <= |after|
    ensures i == |before| && j == |after| ==> Script(before, after, i, j) == []
    ensures i < |before| && j == |after| ==>
              Script(before, after, i, j) == [Removed(i, before[i])] + Script(before, after, i + 1, j)
    ensures i == |before| && j < |after| ==>
              Script(before, after, i, j) == [Added(j, after[j])] + Script(before, after, i, j + 1)
    ensures i < |before| && j < |after| ==>
              Script(before, after, i, j) ==
              if before[i] == after[j] then Script(before, after, i + 1, j + 1)
              else if Lcs(before[i + 1..], after[j..]) >= Lcs(before[i..], after[j + 1..])
              then [Removed(i, before[i])] + Script(before, after, i + 1, j)
              else [Added(j, after[j])] + Script(before, after, i, j + 1)
  {
    hide Lcs;
  }

  lemma Append<T>(done: seq<T>, op: T, rest: seq<T>)
    ensures done + ([op] + rest) == (done + [op]) + rest
  {
  }

  // ----- The table holds longest common subsequence lengths -----

  lemma {:induction false} SubsequenceDrop(x: seq<Line>, s: seq<Line>)
    requires x != [] && Subsequence(x, s)
    ensures Subsequence(x[1..], s) && s != [] && Subsequence(x[1..], s[1..])
    decreases |s|
  {
    if Subsequence(x, s[1..]) {
      SubsequenceDrop(x, s[1..]);
      SubsequenceCons(x[1..], s);
    } else {
      SubsequenceCons(x[1..], s);
    }
  }

  lemma SubsequenceCons(x: seq<Line>, s: seq<Line>)
    requires s != [] && Subsequence(x, s[1..])
    ensures Subsequence(x, s)
  {
  }

  /** No common subsequence is longer than `Lcs`. */
  lemma {:induction false} LcsIsUpperBound(x: seq<Line>, a: seq<Line>, b: seq<Line>)
    requires Common(x, a, b)
    ensures |x| <= Lcs(a, b)
    decreases |a| + |b|
  {
    if x != [] {
      if a[0] == b[0] {
        SubsequenceDrop(x, a);
        SubsequenceDrop(x, b);
        LcsIsUpperBound(x[1..], a[1..], b[1..]);
      } else if Subsequence(x, a[1..]) {
        LcsIsUpperBound(x, a[1..], b);
      } else {
        LcsIsUpperBound(x, a, b[1..]);
      }
    }
  }

  /** And one of that length exists. */
  lemma {:induction false} LcsIsAttained(a: seq<Line>, b: seq<Line>) returns (x: seq<Line>)
    ensures Common(x, a, b) && |x| == Lcs(a, b)
    decreases |a| + |b|
  {
    if a == [] || b == [] {
      x := [];
    } else if a[0] == b[0] {
      var y := LcsIsAttained(a[1..], b[1..]);
      x := [a[0]] + y;
      assert x[1..] == y;
    } else if Lcs(a[1..], b) >= Lcs(a, b[1..]) {
      x := LcsIsAttained(a[1..], b);
      SubsequenceCons(x, a);
    } else {
      x := LcsIsAttained(a, b[1..]);
      SubsequenceCons(x, b);
    }
  }

  // ----- The script is correct -----

  lemma {:induction false} ScriptPatches(before: seq<Line>, after: seq<Line>, i: nat, j: nat)
    requires i <= |before| && j <= |after|
    ensures Patch(before, i, j, Script(before, after, i, j)) == Some(after[j..])
    decreases |before| - i + |after| - j
  {
    var ops := Script(before, after, i, j);
    if i < |before| && j < |after| && before[i] == after[j] {
      ScriptPatches(before, after, i + 1, j + 1);
      ScriptIndices(before, after, i + 1, j + 1);
      assert [after[j]] + after[j + 1..] == after[j..];
      assert ops == [] ==> before[i..] == [before[i]] + before[i + 1..];
    } else if i == |before| && j == |after| {
      assert ops == [] && before[i..] == after[j..];
    } else if ops[0].Removed? {
      assert ops[0] == Removed(i, before[i]) && ops[1..] == Script(before, after, i + 1, j);
      ScriptPatches(before, after, i + 1, j);
      assert Patch(before, i, j, ops) == Patch(before, i + 1, j, ops[1..]);
    } else {
      assert ops[0] == Added(j, after[j]) && ops[1..] == Script(before, after, i, j + 1);
      ScriptPatches(before, after, i, j + 1);
      assert [after[j]] + after[j + 1..] == after[j..];
      assert Patch(before, i, j, ops) == Copy(after[j], Patch(before, i, j + 1, ops[1..]));
    }
  }

  /** Removals and additions each come with true texts and strictly increasing indices. */
  ghost predicate WellIndexed(before: seq<Line>, after: seq<Line>, i: nat, j: nat, ops: seq<DiffOp>) {
    && (forall k :: 0 <= k < |ops| ==>
          match ops[k]
          case Removed(index, text) => i <= index < |before| && before[index] == text
          case Added(index, text) => j <= index < |after| && after[index] == text)
    && (forall k, l :: 0 <= k < l < |ops| && ops[k].Removed? == ops[l].Removed? ==>
          ops[k].index < ops[l].index)
  }

  lemma {:induction false} ScriptIndices(before: seq<Line>, after: seq<Line>, i: nat, j: nat)
    requires i <= |before| && j <= |after|
    ensures WellIndexed(before, after, i, j, Script(before, after, i, j))
    decreases |before| - i + |after| - j
  {
    hide Lcs, WellIndexed;
    if i < |before| && j < |after| && before[i] == after[j] {
      ScriptIndices(before, after, i + 1, j + 1);
      Weaken(before, after, i, j, Script(before, after, i, j));
    } else if i == |before| && j == |after| {
      NothingIsWellIndexed(before, after, i, j);
    } else {
      ScriptStep(before, after, i, j);
      if Script(before, after, i, j)[0].Removed? {
        ScriptIndices(before, after, i + 1, j);
        PrependRemoved(before, after, i, j, Script(before, after, i + 1, j));
      } else {
        ScriptIndices(before, after, i, j + 1);
        PrependAdded(before, after, i, j, Script(before, after, i, j + 1));
      }
    }
  }

  lemma NothingIsWellIndexed(before: seq<Line>, after: seq<Line>, i: nat, j: nat)
    ensures WellIndexed(before, after, i, j, [])
  {
  }

  lemma Weaken(before: seq<Line>, after: seq<Line>, i: nat, j: nat, ops: seq<DiffOp>)
    requires WellIndexed(before, after, i + 1, j + 1, ops)
    ensures WellIndexed(before, after, i, j, ops)
  {
  }

  lemma PrependRemoved(before: seq<Line>, after: seq<Line>, i: nat, j: nat, ops: seq<DiffOp>)
    requires i < |before| && WellIndexed(before, after, i + 1, j, ops)
    ensures WellIndexed(before, after, i, j, [Removed(i, before[i])] + ops)
  {
  }

  lemma PrependAdded(before: seq<Line>, after: seq<Line>, i: nat, j: nat, ops: seq<DiffOp>)
    requires j < |after| && WellIndexed(before, after, i, j + 1, ops)
    ensures WellIndexed(before, after, i, j, [Added(j, after[j])] + ops)
  {
  }

  lemma {:induction false} ScriptLength(before: seq<Line>, after: seq<Line>, i: nat, j: nat)
    requires i <= |before| && j <= |after|
    ensures |Script(before, after, i, j)| == |before| - i + |after| - j - 2 * Lcs(before[i..], after[j..])
    decreases |before| - i + |after| - j
  {
    if i < |before| && j < |after| {
      assert before[i..][1..] == before[i + 1..] && after[j..][1..] == after[j + 1..];
      if before[i] == after[j] {
        ScriptLength(before, after, i + 1, j + 1);
      } else if Lcs(before[i + 1..], after[j..]) >= Lcs(before[i..], after[j + 1..]) {
        ScriptLength(before, after, i + 1, j);
      } else {
        ScriptLength(before, after, i, j + 1);
      }
    } else if i < |before| {
      ScriptLength(before, after, i + 1, j);
    } else if j < |after| {
      ScriptLength(before, after, i, j + 1);
    }
  }

  // ----- The script is minimal -----

  /** Dropping a first line loses at most one from the common length, and never gains. */
  lemma LcsDrop(a: seq<Line>, b: seq<Line>)
    ensures a != [] ==> Lcs(a[1..], b) <= Lcs(a, b)
    ensures b != [] ==> Lcs(a, b[1..]) <= Lcs(a, b)
  {
    if a != [] {
      var x := LcsIsAttained(a[1..], b);
      SubsequenceCons(x, a);
      LcsIsUpperBound(x, a, b);
    }
    if b != [] {
      var x := LcsIsAttained(a, b[1..]);
      SubsequenceCons(x, b);
      LcsIsUpperBound(x, a, b);
    }
  }

  lemma {:induction false} LcsSelf(a: seq<Line>)
    ensures Lcs(a, a) == |a|
  {
    if a != [] {
      LcsSelf(a[1..]);
    }
  }

  /** Whatever script turns `before` into `result`, it has at least as many operations. */
  lemma {:induction false} AnyPatchIsAsLong(before: seq<Line>, i: nat, j: nat, ops: seq<DiffOp>)
    requires i <= |before| && Patch(before, i, j, ops).Some?
    ensures var result := Patch(before, i, j, ops).value;
            |before| - i + |result| - 2 * Lcs(before[i..], result) <= |ops|
    decreases |before| - i, |ops|
  {
    var result := Patch(before, i, j, ops).value;
    if ops == [] {
      LcsSelf(before[i..]);
    } else if ops[0].Removed? && i == ops[0].index {
      AnyPatchIsAsLong(before, i + 1, j, ops[1..]);
      LcsDrop(before[i..], result);
      assert before[i..][1..] == before[i + 1..];
    } else if ops[0].Added? && j == ops[0].index {
      AnyPatchIsAsLong(before, i, j + 1, ops[1..]);
      LcsDrop(before[i..], result);
      assert result[1..] == Patch(before, i, j + 1, ops[1..]).value;
    } else {
      AnyPatchIsAsLong(before, i + 1, j + 1, ops);
      assert before[i..][1..] == before[i + 1..];
      assert result[1..] == Patch(before, i + 1, j + 1, ops).value;
    }
  }

  /**
    * The diff is a well-formed edit script that turns the old lines into the new ones; no script that
    * does so is shorter, its length is `n + m - 2 * lcs`, and it is empty exactly when nothing changed.
    */
  lemma DiffIsMinimalEditScript(before: seq<Line>, after: seq<Line>)
    ensures var ops := Script(before, after, 0, 0);
            && Patch(before, 0, 0, ops) == Some(after)
            && WellIndexed(before, after, 0, 0, ops)
            && |ops| == |before| + |after| - 2 * Lcs(before, after)
            && (ops == [] <==> before == after)
            && forall other :: Patch(before, 0, 0, other) == Some(after) ==> |ops| <= |other|
  {
    var ops := Script(before, after, 0, 0);
    assert before[0..] == before && after[0..] == after;
    ScriptPatches(before, after, 0, 0);
    ScriptIndices(before, after, 0, 0);
    ScriptLength(before, after, 0, 0);
    LcsSelf(before);
    forall other | Patch(before, 0, 0, other) == Some(after)
      ensures |ops| <= |other|
    {
      AnyPatchIsAsLong(before, 0, 0, other);
    }
  }

  /**
    * Among the shortest scripts this is the one that removes first: at any point where the next lines differ, the
    * next operation is a removal whenever some shortest script can go on after one.
    */
  lemma RemovalsComeFirst(before: seq<Line>, after: seq<Line>, i: nat, j: nat, rest: seq<DiffOp>)
    requires i < |before| && j < |after| && before[i] != after[j]
    requires Patch(before, i + 1, j, rest) == Some(after[j..]) && 1 + |rest| == |Script(before, after, i, j)|
    ensures Script(before, after, i, j)[0] == Removed(i, before[i])
  {
    hide Patch;
    AnyPatchIsAsLong(before, i + 1, j, rest);
    ScriptLength(before, after, i, j);
    assert before[i..][1..] == before[i + 1..] && after[j..][1..] == after[j + 1..];
  }
}
