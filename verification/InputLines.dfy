/** The lines of a character stream, and what a caller of a line reader sees of them. */
module InputLines {
  /** The next line: up to and with the first newline, or the whole stream. */
  function NextLine(s: seq<char>): seq<char> {
    if s == [] then [] else if s[0] == '\n' then [s[0]] else [s[0]] + NextLine(s[1..])
  }

  function Truncate(line: seq<char>, n: nat): seq<char> {
    if |line| <= n then line else line[..n]
  }

  lemma {:induction false} NextLineIsPrefix(s: seq<char>)
    ensures NextLine(s) <= s && (s != [] ==> NextLine(s) != [])
  {
    if s != [] && s[0] != '\n' { NextLineIsPrefix(s[1..]); }
  }

  /** A newline after `k` other characters, or the end after `k`, ends the line. */
  lemma {:induction false} LineEnds(s: seq<char>, k: nat)
    requires k <= |s| && '\n' !in s[..k]
    ensures k < |s| && s[k] == '\n' ==> NextLine(s) == s[..k + 1]
    ensures k == |s| ==> NextLine(s) == s
  {
    if k > 0 {
      assert s[..k] == [s[0]] + s[1..][..k - 1];
      LineEnds(s[1..], k - 1);
      assert k < |s| ==> s[..k + 1] == [s[0]] + s[1..][..k];
    } else if s != [] && s[0] == '\n' {
      assert s[..1] == [s[0]];
    }
  }

  function LinesOf(s: seq<char>): seq<seq<char>>
    decreases |s|
  {
    NextLineIsPrefix(s);
    if s == [] then [] else [NextLine(s)] + LinesOf(s[|NextLine(s)|..])
  }

  function Concat(lines: seq<seq<char>>): seq<char> {
    if lines == [] then [] else lines[0] + Concat(lines[1..])
  }

  /** Every line ends at its one newline; only the last may lack it, and none is empty. */
  predicate AreLines(lines: seq<seq<char>>) {
    forall i :: 0 <= i < |lines| ==> IsLine(lines[i], i == |lines| - 1)
  }

  predicate IsLine(line: seq<char>, last: bool) {
    line != [] && '\n' !in line[..|line|-1] && (last || line[|line|-1] == '\n')
  }

  lemma {:induction false} NextLineIsLine(s: seq<char>)
    requires s != []
    ensures IsLine(NextLine(s), NextLine(s) == s)
  {
    NextLineIsPrefix(s);
    if s[0] != '\n' && |s| > 1 {
      var rest := NextLine(s[1..]);
      NextLineIsLine(s[1..]);
      assert ([s[0]] + rest)[..|rest|] == [s[0]] + rest[..|rest|-1];
    }
  }

  lemma {:induction false} NextOfLine(line: seq<char>, more: seq<char>)
    requires IsLine(line, more == [])
    ensures NextLine(line + more) == line
  {
    var n := |line| - 1;
    if line[n] == '\n' {
      assert (line + more)[..n] == line[..n];
      LineEnds(line + more, n);
      assert (line + more)[..n + 1] == line;
    } else {
      assert line + more == line;
      assert '\n' !in line[..n + 1] by { assert line[..n + 1] == line[..n] + [line[n]]; }
      LineEnds(line, n + 1);
    }
  }

  /** The lines of `s` are the one way to cut it into lines: nothing lost, nothing twice. */
  lemma {:induction false} LinesExactly(s: seq<char>, lines: seq<seq<char>>)
    ensures lines == LinesOf(s) <==> Concat(lines) == s && AreLines(lines)
    decreases |s|
  {
    if s == [] {
      if lines != [] && AreLines(lines) {
        assert IsLine(lines[0], |lines| == 1);
      }
    } else {
      var n := |NextLine(s)|;
      NextLineIsPrefix(s);
      LinesExactly(s[n..], LinesOf(s[n..]));
      if lines == LinesOf(s) {
        NextLineIsLine(s);
        assert lines[1..] == LinesOf(s[n..]);
        forall i | 0 <= i < |lines| ensures IsLine(lines[i], i == |lines| - 1) {
          if i > 0 { assert IsLine(lines[1..][i - 1], i - 1 == |lines[1..]| - 1); }
        }
      }
      if Concat(lines) == s && AreLines(lines) {
        assert IsLine(lines[0], |lines| == 1);
        assert |lines| > 1 ==> IsLine(lines[1], |lines| == 2);
        NextOfLine(lines[0], Concat(lines[1..]));
        forall i | 0 <= i < |lines[1..]| ensures IsLine(lines[1..][i], i == |lines[1..]| - 1) {
          assert IsLine(lines[i + 1], i + 1 == |lines| - 1);
        }
        LinesExactly(s[n..], lines[1..]);
        assert lines == [lines[0]] + lines[1..];
      }
    }
  }

  /** What call number `k` (from 0) of a reader hands out, when each call takes the next line
      and hands out at most `n` characters of it. */
  function Handed(s: seq<char>, n: nat, k: nat): seq<char>
    decreases k
  {
    NextLineIsPrefix(s);
    if k == 0 then Truncate(NextLine(s), n) else Handed(s[|NextLine(s)|..], n, k - 1)
  }

  /** Successive calls hand out the lines of the stream in turn, each cut to `n`, and then
      nothing; with room for a character, they hand out nothing only at the end. */
  lemma {:induction false} CallsHandOutLines(s: seq<char>, n: nat, k: nat)
    ensures Handed(s, n, k) == if k < |LinesOf(s)| then Truncate(LinesOf(s)[k], n) else []
    ensures n > 0 ==> (Handed(s, n, k) == [] <==> k >= |LinesOf(s)|)
    decreases k
  {
    NextLineIsPrefix(s);
    if k > 0 { CallsHandOutLines(s[|NextLine(s)|..], n, k - 1); }
  }
}
