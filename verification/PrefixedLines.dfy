/** How many lines the wrapper with a prefix uses, against the fewest that the width the
    caller asked for allows. */
module PrefixedLines {
  // The wrapper counts the prefix of its first line as `lead` columns although the width has
  // been reduced by it already. A layout that fits the width the caller asked for is one
  // that fits the reduced width with `lead` 0.

  import opened WrapText

  // ---------------------------------------------------------------- the greedy layout, computed

  /** The end of a line that starts at word `i` and has words up to `j` already. */
  function CutFrom(words: seq<string>, i: nat, j: nat, lead: nat, width: int): (n: nat)
    requires i < j <= |words|
    requires j == i + 1 || lead + Span(words, i, j) <= width
    ensures j <= n <= |words|
    ensures n == i + 1 || lead + Span(words, i, n) <= width
    ensures n < |words| ==> lead + Span(words, i, n + 1) > width
    decreases |words| - j
  {
    if j < |words| && lead + Span(words, i, j + 1) <= width then CutFrom(words, i, j + 1, lead, width) else j
  }

  /** The end of the greedy line from word `i`, with `lead` columns taken. */
  function Cut(words: seq<string>, i: nat, lead: nat, width: int): (n: nat)
    requires i < |words|
    ensures i < n <= |words|
  {
    CutFrom(words, i, i + 1, lead, width)
  }

  /** The number of greedy lines from word `i` on. */
  function LinesFrom(words: seq<string>, i: nat, width: int): nat
    requires i <= |words|
    decreases |words| - i
  {
    if i == |words| then 0 else 1 + LinesFrom(words, Cut(words, i, 0, width), width)
  }

  function CutsFrom(words: seq<string>, i: nat, width: int): seq<nat>
    requires i <= |words|
    decreases |words| - i
  {
    if i == |words| then [i] else [i] + CutsFrom(words, Cut(words, i, 0, width), width)
  }

  lemma {:induction false} CutsFromAre(words: seq<string>, i: nat, width: int)
    requires i <= |words|
    ensures var r := CutsFrom(words, i, width);
            && |r| == LinesFrom(words, i, width) + 1 && r[0] == i && r[|r|-1] == |words|
            && forall k :: 0 <= k < |r| - 1 ==> r[k] < |words| && r[k+1] == Cut(words, r[k], 0, width)
    decreases |words| - i
  {
    if i < |words| {
      var j, r := Cut(words, i, 0, width), CutsFrom(words, i, width);
      CutsFromAre(words, j, width);
      assert r == [i] + CutsFrom(words, j, width);
      forall k | 0 <= k < |r| - 1 ensures r[k] < |words| && r[k+1] == Cut(words, r[k], 0, width) {
        if k > 0 { assert r[k] == CutsFrom(words, j, width)[k - 1]; }
      }
    }
  }

  function GreedyCuts(words: seq<string>, lead: nat, width: int): seq<nat>
    requires words != []
  {
    [0] + CutsFrom(words, Cut(words, 0, lead, width), width)
  }

  lemma GreedyCutsAre(words: seq<string>, lead: nat, width: int)
    requires words != []
    ensures var g := GreedyCuts(words, lead, width);
            && Layout(words, |words|, g) && Fits(words, g, lead, width) && Greedy(words, g, lead, width)
            && |g| == LinesFrom(words, Cut(words, 0, lead, width), width) + 2
  {
    var g := GreedyCuts(words, lead, width);
    CutsFromAre(words, Cut(words, 0, lead, width), width);
    forall k | 0 <= k < |g| - 1
      ensures IsLine(words, g, k) && LineFits(words, g, k, lead, width)
      ensures k < |g| - 2 ==> LineFull(words, g, k, lead, width)
    {
      assert g[k] < |words| && g[k+1] == Cut(words, g[k], Column(lead, k), width);
    }
  }

  // ---------------------------------------------------------------- at most one line more

  /** A greedy layout is never more than one line behind one that ignores the lead. */
  lemma {:induction false} GreedyOneBehind(words: seq<string>, g: seq<nat>, o: seq<nat>, lead: nat, width: int, k: nat)
    requires Layout(words, |words|, g) && Layout(words, |words|, o) && k + 1 < |g| && k < |o|
    requires Greedy(words, g, lead, width) && Fits(words, o, 0, width)
    ensures g[k+1] >= o[k]
  {
    if k > 0 {
      GreedyOneBehind(words, g, o, lead, width, k - 1);
      assert IsLine(words, g, k) && LineFits(words, o, k - 1, 0, width);
      if g[k+1] < o[k] {
        assert LineFull(words, g, k, lead, width);
        PosMonotone(words, o[k-1], g[k]);
        PosMonotone(words, g[k+1] + 1, o[k]);
      }
    }
  }

  lemma GreedyOneMore(words: seq<string>, g: seq<nat>, o: seq<nat>, lead: nat, width: int)
    requires Layout(words, |words|, g) && Layout(words, |words|, o)
    requires Greedy(words, g, lead, width) && Fits(words, o, 0, width)
    ensures |g| <= |o| + 1
  {
    if |o| + 1 < |g| {
      assert IsLine(words, g, |o|);
      GreedyOneBehind(words, g, o, lead, width, |o| - 1);
    }
  }

  // ---------------------------------------------------------------- exactly when none

  lemma FitsWithoutLead(words: seq<string>, g: seq<nat>, lead: nat, width: int)
    requires Fits(words, g, lead, width)
    ensures Fits(words, g, 0, width)
  {
    forall k | 0 <= k < |g| - 1 ensures LineFits(words, g, k, 0, width) {
      assert LineFits(words, g, k, lead, width);
    }
  }

  /** The computed layout is one the wrapper may set (`Minimal` with the lead), and every one
      it may set has as many lines. */
  lemma LineCount(words: seq<string>, lead: nat, width: int)
    requires words != []
    ensures Minimal(words, GreedyCuts(words, lead, width), lead, width)
    ensures forall cuts :: Minimal(words, cuts, lead, width) ==>
              |cuts| == LinesFrom(words, Cut(words, 0, lead, width), width) + 2
  {
    var g := GreedyCuts(words, lead, width);
    GreedyCutsAre(words, lead, width);
    forall o | Layout(words, |words|, o) && Fits(words, o, lead, width) ensures |g| <= |o| {
      GreedyMinimal(words, g, o, lead, width);
    }
  }

  /** No layout that fits the width asked for has fewer lines. */
  ghost predicate Fewest(words: seq<string>, cuts: seq<nat>, width: int) {
    forall o :: Layout(words, |words|, o) && Fits(words, o, 0, width) ==> |cuts| <= |o|
  }

  /** At most one line more than any layout that fits the width asked for. */
  ghost predicate OneMore(words: seq<string>, cuts: seq<nat>, width: int) {
    forall o :: Layout(words, |words|, o) && Fits(words, o, 0, width) ==> |cuts| <= |o| + 1
  }

  lemma BestCuts(words: seq<string>, width: int)
    requires words != []
    ensures Fewest(words, GreedyCuts(words, 0, width), width)
  {
    GreedyCutsAre(words, 0, width);
    forall o | Layout(words, |words|, o) && Fits(words, o, 0, width) ensures |GreedyCuts(words, 0, width)| <= |o| {
      GreedyMinimal(words, GreedyCuts(words, 0, width), o, 0, width);
    }
  }

  lemma PrefixedOneMore(words: seq<string>, lead: nat, width: int)
    requires words != []
    ensures OneMore(words, GreedyCuts(words, lead, width), width)
  {
    GreedyCutsAre(words, lead, width);
    forall o | Layout(words, |words|, o) && Fits(words, o, 0, width)
      ensures |GreedyCuts(words, lead, width)| <= |o| + 1
    {
      GreedyOneMore(words, GreedyCuts(words, lead, width), o, lead, width);
    }
  }

  /** What the wrapper with a prefix sets uses at most one line more than the width asked for
      allows, and none more exactly if ending the first line at the smaller column leaves as
      many lines to come as ending it where it could. */
  lemma PrefixedFewestExactly(words: seq<string>, lead: nat, width: int)
    requires words != []
    ensures forall cuts :: Minimal(words, cuts, lead, width) ==>
              && OneMore(words, cuts, width)
              && (Fewest(words, cuts, width) <==>
                    LinesFrom(words, Cut(words, 0, lead, width), width)
                    == LinesFrom(words, Cut(words, 0, 0, width), width))
  {
    var g, best := GreedyCuts(words, lead, width), GreedyCuts(words, 0, width);
    LineCount(words, lead, width);
    GreedyCutsAre(words, lead, width);
    GreedyCutsAre(words, 0, width);
    BestCuts(words, width);
    PrefixedOneMore(words, lead, width);
    FitsWithoutLead(words, g, lead, width);
    assert |best| <= |g|;
    forall cuts | Minimal(words, cuts, lead, width)
      ensures OneMore(words, cuts, width) && (Fewest(words, cuts, width) <==> |g| == |best|)
    {
      assert |cuts| == |g|;
    }
  }

  /** With prefix "ab" and width 5 the words "c" and "d" would fit on one line, "abc d", but
      are set on two. */
  lemma PrefixedNotFewest()
    ensures forall cuts :: Minimal(["c", "d"], cuts, 2, 5 - 2) ==>
              |cuts| == 3 && !Fewest(["c", "d"], cuts, 5 - 2)
    ensures Minimal(["c", "d"], GreedyCuts(["c", "d"], 2, 5 - 2), 2, 5 - 2)
  {
    var words := ["c", "d"];
    assert Pos(words, 1) == 2 && Pos(words, 2) == 4;
    assert Cut(words, 0, 0, 3) == 2 && Cut(words, 0, 2, 3) == 1 && Cut(words, 1, 0, 3) == 2;
    LineCount(words, 2, 3);
    PrefixedFewestExactly(words, 2, 3);
  }
}
