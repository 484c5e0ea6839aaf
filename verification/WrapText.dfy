/** The two greedy text wrappers, `wrapText` of `namespaces_of.go` and the variant with a
    prefix of `view_v2_cgroups.go`. */
module WrapText {
  import opened Sequences
  import opened Words

  // ---------------------------------------------------------------- layouts

  /** Total size of the first `j` words, each followed by one blank. */
  function Pos(words: seq<string>, j: nat): nat
    requires j <= |words|
  {
    if j == 0 then 0 else Pos(words, j - 1) + |words[j-1]| + 1
  }

  /** Width of words i..j set on one line. */
  function Span(words: seq<string>, i: nat, j: nat): int
    requires i < j <= |words|
  {
    Pos(words, j) - Pos(words, i) - 1
  }

  function LineText(words: seq<string>, i: nat, j: nat): string
    requires i < j <= |words|
  {
    if j == i + 1 then words[i] else LineText(words, i, j - 1) + " " + words[j-1]
  }

  lemma {:induction false} PosMonotone(words: seq<string>, i: nat, j: nat)
    requires i <= j <= |words|
    ensures Pos(words, i) <= Pos(words, j)
  {
    if i < j { PosMonotone(words, i, j - 1); }
  }

  lemma {:induction false} LineTextLength(words: seq<string>, i: nat, j: nat)
    requires i < j <= |words|
    ensures |LineText(words, i, j)| == Span(words, i, j)
  {
    if j > i + 1 { LineTextLength(words, i, j - 1); }
  }

  /** `lead` columns of the first line are taken by a prefix. */
  function Column(lead: nat, k: nat): nat {
    if k == 0 then lead else 0
  }

  /** Line k holds words cuts[k]..cuts[k+1]. */
  ghost predicate IsLine(words: seq<string>, cuts: seq<nat>, k: nat) {
    k < |cuts| - 1 && cuts[k] < cuts[k+1] <= |words|
  }

  /** A layout of the first `n` words. */
  ghost predicate Layout(words: seq<string>, n: nat, cuts: seq<nat>) {
    && cuts != [] && cuts[0] == 0 && cuts[|cuts|-1] == n
    && forall k {:trigger IsLine(words, cuts, k)} :: 0 <= k < |cuts| - 1 ==> IsLine(words, cuts, k)
  }

  ghost predicate LineFits(words: seq<string>, cuts: seq<nat>, k: nat, lead: nat, width: int) {
    IsLine(words, cuts, k)
    && (cuts[k+1] == cuts[k] + 1 || Column(lead, k) + Span(words, cuts[k], cuts[k+1]) <= width)
  }

  /** Every line fits the width or holds a single word. */
  ghost predicate Fits(words: seq<string>, cuts: seq<nat>, lead: nat, width: int) {
    forall k {:trigger LineFits(words, cuts, k, lead, width)} ::
      0 <= k < |cuts| - 1 ==> LineFits(words, cuts, k, lead, width)
  }

  /** The first word of the next line would not have fitted on line k. */
  ghost predicate LineFull(words: seq<string>, cuts: seq<nat>, k: nat, lead: nat, width: int) {
    IsLine(words, cuts, k) && cuts[k+1] < |words|
    && Column(lead, k) + Span(words, cuts[k], cuts[k+1] + 1) > width
  }

  ghost predicate FullUpTo(words: seq<string>, cuts: seq<nat>, n: int, lead: nat, width: int) {
    forall k {:trigger LineFull(words, cuts, k, lead, width)} ::
      0 <= k < n ==> LineFull(words, cuts, k, lead, width)
  }

  /** No line but the last has room for the word that follows it. */
  ghost predicate Greedy(words: seq<string>, cuts: seq<nat>, lead: nat, width: int) {
    FullUpTo(words, cuts, |cuts| - 2, lead, width)
  }

  /** After any number of lines a greedy layout has placed at least as many words as any
      other layout that fits. */
  lemma {:induction false} GreedyAhead(words: seq<string>, g: seq<nat>, o: seq<nat>, lead: nat, width: int, k: nat)
    requires Layout(words, |words|, g) && Layout(words, |words|, o) && k < |g| && k < |o|
    requires Greedy(words, g, lead, width) && Fits(words, o, lead, width)
    ensures g[k] >= o[k]
  {
    if k > 0 {
      GreedyAhead(words, g, o, lead, width, k - 1);
      assert IsLine(words, g, k - 1) && LineFits(words, o, k - 1, lead, width);
      if g[k] < o[k] {
        assert k < |g| - 1;
        assert LineFull(words, g, k - 1, lead, width);
        PosMonotone(words, o[k-1], g[k-1]);
        PosMonotone(words, g[k] + 1, o[k]);
      }
    }
  }

  /** A greedy layout has the minimum number of lines. */
  lemma GreedyMinimal(words: seq<string>, g: seq<nat>, o: seq<nat>, lead: nat, width: int)
    requires Layout(words, |words|, g) && Layout(words, |words|, o)
    requires Greedy(words, g, lead, width) && Fits(words, o, lead, width)
    ensures |g| <= |o|
  {
    if |o| < |g| {
      assert IsLine(words, g, |o| - 1);
      GreedyAhead(words, g, o, lead, width, |o| - 1);
    }
  }

  // ---------------------------------------------------------------- the running text

  predicate Blank(s: string) {
    forall i :: 0 <= i < |s| ==> s[i] == ' '
  }

  ghost predicate LineShown(lines: seq<string>, words: seq<string>, cuts: seq<nat>, k: nat, first: string, margin: string) {
    IsLine(words, cuts, k) && k < |lines|
    && lines[k] == (if k == 0 then first else margin) + LineText(words, cuts[k], cuts[k+1])
  }

  /** The lines of a text show the layout `cuts`, with `first` in front of the first line
      and `margin` in front of every other. */
  ghost predicate Shows(lines: seq<string>, words: seq<string>, cuts: seq<nat>, first: string, margin: string) {
    && |lines| == |cuts| - 1
    && forall k {:trigger LineShown(lines, words, cuts, k, first, margin)} ::
         0 <= k < |cuts| - 1 ==> LineShown(lines, words, cuts, k, first, margin)
  }

  /** The lines completed so far, and the current line holding words `start`..`i`. */
  ghost predicate Running(words: seq<string>, cuts: seq<nat>, i: nat, col: int, lead: nat, width: int) {
    && cuts != [] && cuts[|cuts|-1] < i <= |words|
    && Layout(words, cuts[|cuts|-1], cuts)
    && Fits(words, cuts, lead, width) && FullUpTo(words, cuts, |cuts| - 1, lead, width)
    && col == Column(lead, |cuts| - 1) + Span(words, cuts[|cuts|-1], i)
    && (i == cuts[|cuts|-1] + 1 || col <= width)
  }

  ghost predicate RunningText(result: string, words: seq<string>, cuts: seq<nat>, i: nat, first: string, margin: string) {
    && 0 < i <= |words|
    && ('\n' !in first && '\n' !in margin ==> Shows(Lines(result), words, cuts + [i], first, margin))
    && (Blank(margin) ==> Fields(result) == Fields(first + words[0]) + words[1..i])
  }

  lemma NoNewline(w: string)
    requires IsWord(w)
    ensures '\n' !in w
  {
    assert IsSpace('\n');
  }

  lemma Start(words: seq<string>, lead: nat, width: int, first: string, margin: string)
    requires words != [] && forall w :: w in words ==> IsWord(w)
    ensures Running(words, [0], 1, lead + |words[0]|, lead, width)
    ensures RunningText(first + words[0], words, [0], 1, first, margin)
  {
    assert Pos(words, 1) == Pos(words, 0) + |words[0]| + 1;
    assert words[1..1] == [] && [0] + [1] == [0, 1];
    NoNewline(words[0]);
    if '\n' !in first { assert '\n' !in first + words[0]; }
  }

  lemma LayoutSnoc(words: seq<string>, cuts: seq<nat>, i: nat, col: int, lead: nat, width: int)
    requires Running(words, cuts, i, col, lead, width)
    ensures Layout(words, i, cuts + [i]) && Fits(words, cuts + [i], lead, width)
    ensures FullUpTo(words, cuts + [i], |cuts| - 1, lead, width)
  {
    var cuts' := cuts + [i];
    forall k | 0 <= k < |cuts| ensures LineFits(words, cuts', k, lead, width) {
      if k < |cuts| - 1 { assert LineFits(words, cuts, k, lead, width); }
    }
    forall k | 0 <= k < |cuts| - 1 ensures LineFull(words, cuts', k, lead, width) {
      assert LineFull(words, cuts, k, lead, width);
    }
    forall k | 0 <= k < |cuts'| - 1 ensures IsLine(words, cuts', k) {
      assert LineFits(words, cuts', k, lead, width);
    }
  }

  /** The next word does not fit: it starts a new line. */
  lemma Break(words: seq<string>, cuts: seq<nat>, i: nat, col: int, lead: nat, width: int)
    requires Running(words, cuts, i, col, lead, width)
    requires i < |words| && col + |words[i]| + 1 > width
    ensures Running(words, cuts + [i], i + 1, |words[i]|, lead, width)
  {
    LayoutSnoc(words, cuts, i, col, lead, width);
    assert Pos(words, i + 1) == Pos(words, i) + |words[i]| + 1;
    var cuts' := cuts + [i];
    assert LineFull(words, cuts', |cuts| - 1, lead, width) by {
      assert cuts'[|cuts|-1] == cuts[|cuts|-1] && IsLine(words, cuts', |cuts| - 1);
    }
  }

  /** The next word fits: it is added to the current line. */
  lemma Append(words: seq<string>, cuts: seq<nat>, i: nat, col: int, lead: nat, width: int)
    requires Running(words, cuts, i, col, lead, width)
    requires i < |words| && col + |words[i]| + 1 <= width
    ensures Running(words, cuts, i + 1, col + 1 + |words[i]|, lead, width)
  {
    assert Pos(words, i + 1) == Pos(words, i) + |words[i]| + 1;
  }

  lemma BreakText(result: string, words: seq<string>, cuts: seq<nat>, i: nat, first: string, margin: string)
    requires RunningText(result, words, cuts, i, first, margin)
    requires i < |words| && forall w :: w in words ==> IsWord(w)
    ensures RunningText(result + "\n" + margin + words[i], words, cuts + [i], i + 1, first, margin)
  {
    var line := margin + words[i];
    assert result + "\n" + margin + words[i] == result + "\n" + line;
    NoNewline(words[i]);
    if '\n' !in first && '\n' !in margin {
      LinesSnoc(result, line);
      var lines, lines' := Lines(result), Lines(result + "\n" + line);
      var before, cuts' := cuts + [i], cuts + [i] + [i + 1];
      forall k | 0 <= k < |cuts'| - 1 ensures LineShown(lines', words, cuts', k, first, margin) {
        if k < |cuts| {
          assert LineShown(lines, words, before, k, first, margin);
          assert lines'[k] == lines[k];
        }
      }
    }
    if Blank(margin) {
      assert result + ("\n" + margin) + words[i] == result + "\n" + line;
      FieldsSnoc(result, "\n" + margin, words[i]);
      assert words[1..i+1] == words[1..i] + [words[i]];
    }
  }

  lemma AppendLines(lines: seq<string>, lines': seq<string>, words: seq<string>, cuts: seq<nat>, i: nat,
                    first: string, margin: string)
    requires cuts != [] && i < |words| && Shows(lines, words, cuts + [i], first, margin)
    requires |lines'| == |lines| && lines'[..|lines|-1] == lines[..|lines|-1]
    requires lines'[|lines|-1] == lines[|lines|-1] + (" " + words[i])
    ensures Shows(lines', words, cuts + [i + 1], first, margin)
  {
    var before, cuts', n := cuts + [i], cuts + [i + 1], |cuts| - 1;
    forall k | 0 <= k < |cuts'| - 1 ensures LineShown(lines', words, cuts', k, first, margin) {
      assert LineShown(lines, words, before, k, first, margin);
      if k == n {
        Associate(if k == 0 then first else margin, LineText(words, cuts[n], i), " " + words[i]);
        Associate(LineText(words, cuts[n], i), " ", words[i]);
      } else {
        assert lines'[k] == lines'[..|lines|-1][k];
      }
    }
  }

  lemma AppendText(result: string, words: seq<string>, cuts: seq<nat>, i: nat, first: string, margin: string)
    requires RunningText(result, words, cuts, i, first, margin) && cuts != []
    requires i < |words| && forall w :: w in words ==> IsWord(w)
    ensures RunningText(result + " " + words[i], words, cuts, i + 1, first, margin)
  {
    var more := " " + words[i];
    assert result + " " + words[i] == result + more;
    NoNewline(words[i]);
    if '\n' !in first && '\n' !in margin {
      LinesExtend(result, more);
      AppendLines(Lines(result), Lines(result + more), words, cuts, i, first, margin);
    }
    if Blank(margin) {
      FieldsSnoc(result, " ", words[i]);
      assert words[1..i+1] == words[1..i] + [words[i]];
    }
  }

  ghost predicate Wrapping(result: string, words: seq<string>, cuts: seq<nat>, i: nat, col: int, lead: nat,
                           width: int, first: string, margin: string)
  {
    Running(words, cuts, i, col, lead, width) && RunningText(result, words, cuts, i, first, margin)
  }

  /** One turn of the loop. */
  lemma WrapNext(result: string, words: seq<string>, cuts: seq<nat>, i: nat, col: int, lead: nat,
                 width: int, first: string, margin: string)
    requires Wrapping(result, words, cuts, i, col, lead, width, first, margin) && i < |words|
    requires forall w :: w in words ==> IsWord(w)
    ensures if col + |words[i]| + 1 > width
            then Wrapping(result + "\n" + margin + words[i], words, cuts + [i], i + 1, |words[i]|, lead, width,
                          first, margin)
            else Wrapping(result + " " + words[i], words, cuts, i + 1, col + 1 + |words[i]|, lead, width,
                          first, margin)
  {
    if col + |words[i]| + 1 > width {
      Break(words, cuts, i, col, lead, width);
      BreakText(result, words, cuts, i, first, margin);
    } else {
      Append(words, cuts, i, col, lead, width);
      AppendText(result, words, cuts, i, first, margin);
    }
  }

  // ---------------------------------------------------------------- the wrappers

  /** `cuts` is a layout that fits, and no layout that fits has fewer lines. */
  ghost predicate Minimal(words: seq<string>, cuts: seq<nat>, lead: nat, width: int) {
    && Layout(words, |words|, cuts) && Fits(words, cuts, lead, width)
    && forall o :: Layout(words, |words|, o) && Fits(words, o, lead, width) ==> |cuts| <= |o|
  }

  lemma Finished(words: seq<string>, cuts: seq<nat>, col: int, lead: nat, width: int)
    requires Running(words, cuts, |words|, col, lead, width)
    ensures Minimal(words, cuts + [|words|], lead, width) && Greedy(words, cuts + [|words|], lead, width)
  {
    var g := cuts + [|words|];
    LayoutSnoc(words, cuts, |words|, col, lead, width);
    forall o | Layout(words, |words|, o) && Fits(words, o, lead, width) ensures |g| <= |o| {
      GreedyMinimal(words, g, o, lead, width);
    }
  }

  /** `wrapText` of `namespaces_of.go`. */
  method Wrap(text: string, width: int, indent: string) returns (result: string, ghost cuts: seq<nat>)
    ensures Fields(text) == [] ==> result == ""
    ensures Fields(text) != [] ==> Minimal(Fields(text), cuts, 0, width) && Greedy(Fields(text), cuts, 0, width)
    ensures Fields(text) != [] && '\n' !in indent ==> Shows(Lines(result), Fields(text), cuts, indent, indent)
    ensures Blank(indent) ==> Fields(result) == Fields(text)
  {
    var words := Fields(text);
    if |words| == 0 { return "", [0]; }
    result := indent + words[0];
    var col := |words[0]|;
    cuts := [0];
    Start(words, 0, width, indent, indent);
    var i := 1;
    while i < |words|
      invariant Wrapping(result, words, cuts, i, col, 0, width, indent, indent)
    {
      var word := words[i];
      WrapNext(result, words, cuts, i, col, 0, width, indent, indent);
      if col + |word| + 1 > width {
        result := result + "\n" + indent + word;
        col := |word|;
        cuts := cuts + [i];
      } else {
        result := result + " " + word;
        col := col + 1 + |word|;
      }
      i := i + 1;
    }
    Finished(words, cuts, col, 0, width);
    IndentedWords(words, indent);
    cuts := cuts + [i];
  }

  lemma IndentedWords(words: seq<string>, indent: string)
    requires words != [] && IsWord(words[0])
    ensures Blank(indent) ==> Fields(indent + words[0]) + words[1..|words|] == words
  {
    if Blank(indent) { IndentedWord(indent, words[0]); }
  }

  lemma IndentedWord(indent: string, w: string)
    requires Blank(indent) && IsWord(w)
    ensures Fields(indent + w) == [w]
  {
    FieldsAppend(indent, w);
    FieldsOfSpace(indent);
    FieldsOfWord(w);
  }

  /** What the width means for the text: each line stays within the indentation and the
      width, or holds a single word. */
  lemma WidthKept(lines: seq<string>, words: seq<string>, cuts: seq<nat>, width: int, indent: string, k: nat)
    requires Fits(words, cuts, 0, width) && Shows(lines, words, cuts, indent, indent) && k < |lines|
    ensures IsLine(words, cuts, k)
    ensures |lines[k]| <= |indent| + width || lines[k] == indent + words[cuts[k]]
  {
    assert LineFits(words, cuts, k, 0, width) && LineShown(lines, words, cuts, k, indent, indent);
    LineTextLength(words, cuts[k], cuts[k+1]);
  }

  function Blanks(n: nat): (s: string)
    ensures |s| == n && Blank(s)
  {
    seq(n, _ => ' ')
  }

  /** `wrapText` of `view_v2_cgroups.go`: the first line carries a prefix, the others as
      many blanks. The prefix is counted in `col` and taken off `width` as well. */
  method WrapPrefixed(text: string, prefix: string, width: int, indent: string)
    returns (result: string, ghost cuts: seq<nat>)
    ensures Fields(text) == [] ==> result == ""
    ensures Fields(text) != [] ==>
              Minimal(Fields(text), cuts, |prefix|, width - |prefix|) && Greedy(Fields(text), cuts, |prefix|, width - |prefix|)
    ensures Fields(text) != [] && '\n' !in indent && '\n' !in prefix ==>
              Shows(Lines(result), Fields(text), cuts, indent + prefix, indent + Blanks(|prefix|))
    ensures Fields(text) != [] && Blank(indent) ==>
              Fields(result) == Fields(indent + prefix + Fields(text)[0]) + Fields(text)[1..]
  {
    var words := Fields(text);
    if |words| == 0 { return "", [0]; }
    var first := indent + prefix;
    result := first + words[0];
    var col := |prefix| + |words[0]|;
    var width' := width - |prefix|;
    var margin := indent + Blanks(|prefix|);
    cuts := [0];
    Start(words, |prefix|, width', first, margin);
    var i := 1;
    while i < |words|
      invariant Wrapping(result, words, cuts, i, col, |prefix|, width', first, margin)
    {
      var word := words[i];
      WrapNext(result, words, cuts, i, col, |prefix|, width', first, margin);
      if col + |word| + 1 > width' {
        result := result + "\n" + margin + word;
        col := |word|;
        cuts := cuts + [i];
      } else {
        result := result + " " + word;
        col := col + 1 + |word|;
      }
      i := i + 1;
    }
    PrefixedDone(result, words, cuts, col, prefix, width', indent);
    cuts := cuts + [i];
  }

  lemma PrefixedDone(result: string, words: seq<string>, cuts: seq<nat>, col: int, prefix: string, width: int,
                     indent: string)
    requires Wrapping(result, words, cuts, |words|, col, |prefix|, width, indent + prefix, indent + Blanks(|prefix|))
    ensures var cuts' := cuts + [|words|];
            && Minimal(words, cuts', |prefix|, width) && Greedy(words, cuts', |prefix|, width)
            && ('\n' !in indent && '\n' !in prefix ==>
                  Shows(Lines(result), words, cuts', indent + prefix, indent + Blanks(|prefix|)))
            && (Blank(indent) ==> Fields(result) == Fields(indent + prefix + words[0]) + words[1..])
  {
    Finished(words, cuts, col, |prefix|, width);
    Margins(indent, prefix);
    Tail(words);
  }

  lemma Tail(words: seq<string>)
    requires words != []
    ensures words[1..|words|] == words[1..]
  {
  }

  lemma Margins(indent: string, prefix: string)
    ensures Blank(indent) ==> Blank(indent + Blanks(|prefix|))
    ensures '\n' !in indent && '\n' !in prefix ==>
              '\n' !in indent + prefix && '\n' !in indent + Blanks(|prefix|)
  {
    assert '\n' !in Blanks(|prefix|);
  }

  /** Every line, prefix or blanks included, keeps the width or holds a single word. */
  lemma PrefixedWidthKept(lines: seq<string>, words: seq<string>, cuts: seq<nat>, prefix: string, width: int, indent: string, k: nat)
    requires Fits(words, cuts, |prefix|, width - |prefix|)
    requires Shows(lines, words, cuts, indent + prefix, indent + Blanks(|prefix|)) && k < |lines|
    ensures IsLine(words, cuts, k)
    ensures |lines[k]| <= |indent| + width || cuts[k+1] == cuts[k] + 1
  {
    assert LineFits(words, cuts, k, |prefix|, width - |prefix|);
    assert LineShown(lines, words, cuts, k, indent + prefix, indent + Blanks(|prefix|));
    LineTextLength(words, cuts[k], cuts[k+1]);
  }
}
