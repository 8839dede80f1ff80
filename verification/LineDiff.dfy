/** The line diff of the user interface: a longest common subsequence and the script read off it. */
module LineDiff {
  import opened Strings

  type Pair = (nat, nat)

  // ----- common subsequences -----

  /** Index pairs that match equal lines, strictly increasing in both coordinates, from (i, j) on. */
  ghost predicate Matching(a: seq<string>, b: seq<string>, p: seq<Pair>, i: nat, j: nat) {
    && (forall k | 0 <= k < |p| ::
          i <= p[k].0 < |a| && j <= p[k].1 < |b| && a[p[k].0] == b[p[k].1])
    && (forall k, l | 0 <= k < l < |p| :: p[k].0 < p[l].0 && p[k].1 < p[l].1)
  }

  /** The value of the dynamic-programming cell (i, j). */
  function Lcs(a: seq<string>, b: seq<string>, i: nat, j: nat): nat
    requires i <= |a| && j <= |b|
    decreases |a| - i + |b| - j
  {
    if i == |a| || j == |b| then 0
    else if a[i] == b[j] then 1 + Lcs(a, b, i + 1, j + 1)
    else
      var down, right := Lcs(a, b, i + 1, j), Lcs(a, b, i, j + 1);
      if down >= right then down else right
  }

  /** No common subsequence is longer than the cell says. */
  lemma {:induction false} LcsBounds(a: seq<string>, b: seq<string>, p: seq<Pair>, i: nat, j: nat)
    requires i <= |a| && j <= |b| && Matching(a, b, p, i, j)
    ensures |p| <= Lcs(a, b, i, j)
    decreases |a| - i + |b| - j
  {
    if p != [] {
      assert i <= p[0].0 < |a| && j <= p[0].1 < |b|;
      if a[i] == b[j] {
        forall k | 0 <= k < |p[1..]|
          ensures i < p[1..][k].0 && j < p[1..][k].1
        {
          assert p[0].0 < p[k + 1].0 && p[0].1 < p[k + 1].1;
        }
        LcsBounds(a, b, p[1..], i + 1, j + 1);
      } else if p[0].0 > i {
        LcsBounds(a, b, p, i + 1, j);
      } else {
        LcsBounds(a, b, p, i, j + 1);
      }
    }
  }

  /** Compute row i of the table from row i + 1. */
  method FillRow(a: seq<string>, b: seq<string>, dp: array2<nat>, i: nat)
    requires i < |a| && dp.Length0 == |a| + 1 && dp.Length1 == |b| + 1
    requires dp[i, |b|] == 0
    requires forall x, y | i < x <= |a| && 0 <= y <= |b| :: dp[x, y] == Lcs(a, b, x, y)
    modifies dp
    ensures forall y | 0 <= y <= |b| :: dp[i, y] == Lcs(a, b, i, y)
    ensures forall x, y | 0 <= x <= |a| && x != i && 0 <= y <= |b| :: dp[x, y] == old(dp[x, y])
  {
    for j := |b| downto 0
      invariant forall y | j <= y <= |b| :: dp[i, y] == Lcs(a, b, i, y)
      invariant forall x, y | 0 <= x <= |a| && x != i && 0 <= y <= |b| :: dp[x, y] == old(dp[x, y])
    {
      assert dp[i + 1, j] == Lcs(a, b, i + 1, j) && dp[i + 1, j + 1] == Lcs(a, b, i + 1, j + 1);
      if a[i] == b[j] {
        dp[i, j] := 1 + dp[i + 1, j + 1];
      } else {
        dp[i, j] := if dp[i + 1, j] >= dp[i, j + 1] then dp[i + 1, j] else dp[i, j + 1];
      }
    }
  }

  method FillTable(a: seq<string>, b: seq<string>) returns (dp: array2<nat>)
    ensures fresh(dp) && dp.Length0 == |a| + 1 && dp.Length1 == |b| + 1
    ensures forall x, y | 0 <= x <= |a| && 0 <= y <= |b| :: dp[x, y] == Lcs(a, b, x, y)
  {
    dp := new nat[|a| + 1, |b| + 1]((_, _) => 0);
    for i := |a| downto 0
      invariant forall x, y | i <= x <= |a| && 0 <= y <= |b| :: dp[x, y] == Lcs(a, b, x, y)
      invariant forall x | 0 <= x < i :: dp[x, |b|] == 0
    {
      FillRow(a, b, dp, i);
    }
  }

  /** Fill the table from the end, then walk it from the start. */
  method ComputeLcs(a: seq<string>, b: seq<string>) returns (pairs: seq<Pair>)
    ensures Matching(a, b, pairs, 0, 0)
    ensures |pairs| == Lcs(a, b, 0, 0)
    ensures forall p | Matching(a, b, p, 0, 0) :: |p| <= |pairs|
  {
    var dp := FillTable(a, b);
    pairs := [];
    var i, j := 0, 0;
    while i < |a| && j < |b|
      invariant 0 <= i <= |a| && 0 <= j <= |b|
      invariant Matching(a, b, pairs, 0, 0)
      invariant forall k | 0 <= k < |pairs| :: pairs[k].0 < i && pairs[k].1 < j
      invariant |pairs| + Lcs(a, b, i, j) == Lcs(a, b, 0, 0)
      decreases |a| - i + |b| - j
    {
      if a[i] == b[j] {
        pairs := pairs + [(i, j)];
        i, j := i + 1, j + 1;
      } else if dp[i + 1, j] >= dp[i, j + 1] {
        i := i + 1;
      } else {
        j := j + 1;
      }
    }
    forall p | Matching(a, b, p, 0, 0)
      ensures |p| <= |pairs|
    {
      LcsBounds(a, b, p, 0, 0);
    }
  }

  // ----- edit scripts -----

  datatype DiffLine = Context(line: string) | Added(line: string) | Deleted(line: string)

  /** The first text a script speaks of: context and deleted lines. */
  function OldSide(script: seq<DiffLine>): seq<string> {
    if script == [] then []
    else
      var last, rest := script[|script| - 1], OldSide(script[..|script| - 1]);
      if last.Added? then rest else rest + [last.line]
  }

  /** The second text: context and added lines. */
  function NewSide(script: seq<DiffLine>): seq<string> {
    if script == [] then []
    else
      var last, rest := script[|script| - 1], NewSide(script[..|script| - 1]);
      if last.Deleted? then rest else rest + [last.line]
  }

  /** How many lines a script adds or deletes. */
  function Changed(script: seq<DiffLine>): nat {
    if script == [] then 0
    else Changed(script[..|script| - 1]) + if script[|script| - 1].Context? then 0 else 1
  }

  /** The context lines of any script are a common subsequence, which fixes its cost. */
  lemma {:induction false} ScriptMatching(a: seq<string>, b: seq<string>, script: seq<DiffLine>) returns (p: seq<Pair>)
    requires OldSide(script) <= a && NewSide(script) <= b
    ensures Matching(a, b, p, 0, 0)
    ensures forall k | 0 <= k < |p| :: p[k].0 < |OldSide(script)| && p[k].1 < |NewSide(script)|
    ensures Changed(script) + 2 * |p| == |OldSide(script)| + |NewSide(script)|
    decreases |script|
  {
    if script == [] {
      p := [];
    } else {
      var init, last := script[..|script| - 1], script[|script| - 1];
      p := ScriptMatching(a, b, init);
      if last.Context? {
        var i, j := |OldSide(init)|, |NewSide(init)|;
        assert OldSide(script)[i] == last.line == NewSide(script)[j];
        p := p + [(i, j)];
      }
    }
  }

  /** No script between two texts changes fewer than |a| + |b| - 2 * LCS lines. */
  lemma {:induction false} ScriptLowerBound(a: seq<string>, b: seq<string>, script: seq<DiffLine>)
    requires OldSide(script) == a && NewSide(script) == b
    ensures Changed(script) >= |a| + |b| - 2 * Lcs(a, b, 0, 0)
  {
    var p := ScriptMatching(a, b, script);
    LcsBounds(a, b, p, 0, 0);
  }

  /** The script speaks of the first ia and the first ib lines, il of them shared. */
  ghost predicate Covers(script: seq<DiffLine>, a: seq<string>, b: seq<string>, ia: nat, ib: nat, il: nat) {
    && ia <= |a| && ib <= |b|
    && OldSide(script) == a[..ia] && NewSide(script) == b[..ib]
    && Changed(script) == ia + ib - 2 * il
  }

  lemma {:induction false} CoversMore(script: seq<DiffLine>, a: seq<string>, b: seq<string>, ia: nat, ib: nat, il: nat)
    requires Covers(script, a, b, ia, ib, il)
    ensures ia < |a| && ib < |b| && a[ia] == b[ib] ==> Covers(script + [Context(a[ia])], a, b, ia + 1, ib + 1, il + 1)
    ensures ib < |b| ==> Covers(script + [Added(b[ib])], a, b, ia, ib + 1, il)
    ensures ia < |a| ==> Covers(script + [Deleted(a[ia])], a, b, ia + 1, ib, il)
  {
  }

  /** Walk both line lists along a common subsequence; every access stays in range. */
  method WalkScript(linesA: seq<string>, linesB: seq<string>, lcs: seq<Pair>) returns (out: seq<DiffLine>)
    requires Matching(linesA, linesB, lcs, 0, 0)
    ensures OldSide(out) == linesA && NewSide(out) == linesB
    ensures Changed(out) == |linesA| + |linesB| - 2 * |lcs|
    ensures linesA != [] || linesB != [] ==> out != []
  {
    out := [];
    var ia, ib, il := 0, 0, 0;
    while ia < |linesA| || ib < |linesB|
      invariant 0 <= ia <= |linesA| && 0 <= ib <= |linesB| && 0 <= il <= |lcs|
      invariant il < |lcs| ==> ia <= lcs[il].0 < |linesA| && ib <= lcs[il].1 < |linesB|
      invariant Covers(out, linesA, linesB, ia, ib, il)
      invariant ia + ib > 0 ==> out != []
      decreases |linesA| - ia + |linesB| - ib
    {
      CoversMore(out, linesA, linesB, ia, ib, il);
      if il < |lcs| && ia == lcs[il].0 && ib == lcs[il].1 {
        out := out + [Context(linesA[ia])];
        ia, ib, il := ia + 1, ib + 1, il + 1;
      } else if ib < |linesB| && (il >= |lcs| || ib < lcs[il].1) {
        out := out + [Added(linesB[ib])];
        ib := ib + 1;
      } else {
        out := out + [Deleted(linesA[ia])];
        ia := ia + 1;
      }
    }
    assert il == |lcs|;
  }

  method DiffLines(linesA: seq<string>, linesB: seq<string>) returns (out: seq<DiffLine>)
    ensures OldSide(out) == linesA && NewSide(out) == linesB
    ensures Changed(out) == |linesA| + |linesB| - 2 * Lcs(linesA, linesB, 0, 0)
    ensures forall script | OldSide(script) == linesA && NewSide(script) == linesB :: Changed(out) <= Changed(script)
    ensures linesA != [] || linesB != [] ==> out != []
  {
    var lcs := ComputeLcs(linesA, linesB);
    out := WalkScript(linesA, linesB, lcs);
    forall script | OldSide(script) == linesA && NewSide(script) == linesB
      ensures Changed(out) <= Changed(script)
    {
      ScriptLowerBound(linesA, linesB, script);
    }
  }

  // ----- texts -----

  /** The lines of a text; the empty text has one empty line. */
  function Lines(text: string): seq<string> {
    Split(text, '\n')
  }

  /** The rendered diff rebuilds both texts, is minimal, and is never the "no differences" page. */
  method RenderLineDiff(textA: string, textB: string) returns (out: seq<DiffLine>)
    ensures out != []
    ensures OldSide(out) != [] && Join(OldSide(out), '\n') == textA
    ensures NewSide(out) != [] && Join(NewSide(out), '\n') == textB
    ensures forall script | OldSide(script) == Lines(textA) && NewSide(script) == Lines(textB) ::
              Changed(out) <= Changed(script)
    ensures Changed(out) == 0 <==> textA == textB
  {
    out := DiffLines(Lines(textA), Lines(textB));
    JoinSplit(textA, '\n');
    JoinSplit(textB, '\n');
    UnchangedSides(out);
    if textA == textB {
      var script := ContextOnly(Lines(textA));
      assert Changed(out) <= Changed(script);
    }
  }

  lemma {:induction false} UnchangedSides(script: seq<DiffLine>)
    ensures Changed(script) == 0 ==> OldSide(script) == NewSide(script)
  {
    if script != [] {
      UnchangedSides(script[..|script| - 1]);
    }
  }

  /** A text against itself has a script without changes. */
  lemma {:induction false} ContextOnly(lines: seq<string>) returns (script: seq<DiffLine>)
    ensures OldSide(script) == NewSide(script) == lines && Changed(script) == 0
  {
    if lines == [] {
      script := [];
    } else {
      var rest := ContextOnly(lines[..|lines| - 1]);
      script := rest + [Context(lines[|lines| - 1])];
      assert script[..|script| - 1] == rest;
    }
  }
}
