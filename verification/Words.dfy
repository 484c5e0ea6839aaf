/** White-space separated words and lines of a text of one-byte characters.

    The words are those of Go's strings.Fields: the text is cut around every run of white
    space, and no word is empty. The lines are those of a split at newlines: there is always
    one more than there are newlines, and each may be empty. The wrappers build their text
    from left to right, so what matters is how words and lines of a text grow when something
    is appended to it. */
module Words {
  import opened Sequences

  predicate AllSpace(s: string) {
    forall i :: 0 <= i < |s| ==> IsSpace(s[i])
  }

  predicate IsWord(s: string) {
    s != "" && forall i :: 0 <= i < |s| ==> !IsSpace(s[i])
  }

  /** Length of the run of non-space characters at the start of `s`. */
  function WordLen(s: string): (n: nat)
    ensures n <= |s| && (forall i :: 0 <= i < n ==> !IsSpace(s[i]))
    ensures n < |s| ==> IsSpace(s[n])
  {
    if s == "" || IsSpace(s[0]) then 0
    else
      var n := WordLen(s[1..]);
      assert n < |s| - 1 ==> s[1..][n] == s[n+1];
      n + 1
  }

  function Fields(s: string): (ws: seq<string>)
    ensures forall w :: w in ws ==> IsWord(w)
  {
    if s == "" then []
    else if IsSpace(s[0]) then Fields(s[1..])
    else [s[..WordLen(s)]] + Fields(s[WordLen(s)..])
  }

  lemma WordLenUnique(s: string, n: nat)
    requires n <= |s| && (forall i :: 0 <= i < n ==> !IsSpace(s[i])) && (n < |s| ==> IsSpace(s[n]))
    ensures WordLen(s) == n
  {
  }

  /** Texts that do not meet inside a word contribute their words one after the other. */
  lemma {:induction false} FieldsAppend(s: string, t: string)
    requires s == "" || t == "" || IsSpace(s[|s|-1]) || IsSpace(t[0])
    ensures Fields(s + t) == Fields(s) + Fields(t)
    decreases |s|
  {
    if s == "" {
      assert s + t == t;
    } else if t == "" {
      assert s + t == s;
    } else if IsSpace(s[0]) {
      assert (s + t)[1..] == s[1..] + t;
      FieldsAppend(s[1..], t);
    } else {
      var n := WordLen(s);
      WordLenUnique(s + t, n);
      assert (s + t)[..n] == s[..n] && (s + t)[n..] == s[n..] + t;
      FieldsAppend(s[n..], t);
      assert Fields(s + t) == [s[..n]] + (Fields(s[n..]) + Fields(t));
    }
  }

  lemma FieldsOfSpace(s: string)
    requires AllSpace(s)
    ensures Fields(s) == []
  {
  }

  lemma FieldsOfWord(w: string)
    requires IsWord(w)
    ensures Fields(w) == [w]
  {
    WordLenUnique(w, |w|);
    assert w[..|w|] == w && w[|w|..] == "";
  }

  /** Appending a word after white space adds that word. */
  lemma FieldsSnoc(s: string, sep: string, w: string)
    requires AllSpace(sep) && sep != "" && IsWord(w)
    ensures Fields(s + sep + w) == Fields(s) + [w]
  {
    FieldsAppend(s, sep);
    FieldsAppend(s + sep, w);
    FieldsOfSpace(sep);
    FieldsOfWord(w);
  }

  // ---------------------------------------------------------------- lines

  function LastNewline(s: string): (i: nat)
    requires '\n' in s
    ensures i < |s| && s[i] == '\n' && '\n' !in s[i+1..]
  {
    if s[|s|-1] == '\n' then |s| - 1
    else
      assert s == s[..|s|-1] + [s[|s|-1]];
      var i := LastNewline(s[..|s|-1]);
      assert s[i+1..] == s[..|s|-1][i+1..] + [s[|s|-1]];
      i
  }

  /** The text cut at its newlines. */
  function Lines(s: string): seq<string> {
    if '\n' !in s then [s]
    else Lines(s[..LastNewline(s)]) + [s[LastNewline(s)+1..]]
  }

  lemma {:induction false} LastNewlineIs(s: string, k: nat)
    requires k < |s| && s[k] == '\n' && '\n' !in s[k+1..]
    ensures LastNewline(s) == k
  {
    if k < |s| - 1 {
      var s' := s[..|s|-1];
      assert s[k+1..] == s'[k+1..] + [s[|s|-1]];
      LastNewlineIs(s', k);
    }
  }

  lemma LinesSnoc(s: string, t: string)
    requires '\n' !in t
    ensures Lines(s + "\n" + t) == Lines(s) + [t]
  {
    var r := s + "\n" + t;
    assert r[|s|] == '\n' && r[|s|+1..] == t && r[..|s|] == s;
    LastNewlineIs(r, |s|);
  }

  lemma LinesExtend(s: string, t: string)
    requires '\n' !in t
    ensures Lines(s + t) == Lines(s)[..|Lines(s)|-1] + [Lines(s)[|Lines(s)|-1] + t]
  {
    if '\n' in s {
      var i := LastNewline(s);
      assert s == s[..i] + "\n" + s[i+1..];
      assert s + t == s[..i] + "\n" + (s[i+1..] + t);
      LinesSnoc(s[..i], s[i+1..] + t);
    }
  }
}
