/** NUL-terminated strings inside a character array.

    The C functions that search and cut strings work on a pointer into an array of characters
    and stop at the first NUL. Here the pointer is a position in the array. `CString` gives
    the string that starts there, so that what a function does to the array can be stated on
    strings: putting a NUL over a character cuts a string in two, and writing elsewhere in
    the array does not change it. */
module CStrings {
  /** The string that starts at `p`. */
  function CString(a: seq<char>, p: nat): string
    decreases |a| - p
  {
    if p < |a| && a[p] != '\0' then [a[p]] + CString(a, p + 1) else []
  }

  predicate Terminated(a: seq<char>, p: nat) {
    p + |CString(a, p)| < |a|
  }

  /** `s` and its terminator are what the array holds from `p` on. */
  predicate StringAt(a: seq<char>, p: nat, s: string)
    decreases |s|
  {
    p < |a| && if s == "" then a[p] == '\0' else a[p] == s[0] != '\0' && StringAt(a, p + 1, s[1..])
  }

  lemma {:induction false} StringAtIs(a: seq<char>, p: nat, s: string)
    ensures StringAt(a, p, s) <==> Terminated(a, p) && CString(a, p) == s
    decreases |s|
  {
    if s != "" {
      StringAtIs(a, p + 1, s[1..]);
      assert s == [s[0]] + s[1..];
    }
  }

  /** The position of the first `c`, or the length if there is none. */
  function First(s: string, c: char): (i: nat)
    ensures i <= |s|
  {
    if s == [] || s[0] == c then 0 else 1 + First(s[1..], c)
  }

  lemma {:induction false} FirstIs(s: string, c: char, i: nat)
    requires i <= |s| && c !in s[..i] && (i == |s| || s[i] == c)
    ensures First(s, c) == i
  {
    if i > 0 {
      assert s[0] == s[..i][0];
      assert s[1..][..i - 1] == s[..i][1..];
      FirstIs(s[1..], c, i - 1);
    }
  }

  lemma {:induction false} FirstSplits(s: string, c: char)
    ensures c !in s[..First(s, c)] && (First(s, c) < |s| ==> s[First(s, c)] == c)
  {
    if s != [] && s[0] != c {
      FirstSplits(s[1..], c);
      assert s[..First(s, c)] == [s[0]] + s[1..][..First(s[1..], c)];
    }
  }

  /** The string at `p` runs to the first NUL. */
  lemma {:induction false} CStringIs(a: seq<char>, p: nat, q: nat)
    requires p <= q < |a| && '\0' !in a[p..q] && a[q] == '\0'
    ensures CString(a, p) == a[p..q]
    decreases q - p
  {
    if p < q {
      assert a[p] == a[p..q][0];
      assert a[p + 1..q] == a[p..q][1..];
      CStringIs(a, p + 1, q);
    }
  }

  lemma {:induction false} CStringSlice(a: seq<char>, p: nat)
    requires p <= |a|
    ensures var q := p + |CString(a, p)|;
            q <= |a| && CString(a, p) == a[p..q] && '\0' !in a[p..q] && (q < |a| ==> a[q] == '\0')
    decreases |a| - p
  {
    if p < |a| && a[p] != '\0' {
      CStringSlice(a, p + 1);
      assert a[p..p + |CString(a, p)|] == [a[p]] + a[p + 1..p + |CString(a, p)|];
    }
  }

  lemma {:induction false} Drop(a: seq<char>, p: nat, k: nat)
    requires k <= |CString(a, p)|
    ensures CString(a, p + k) == CString(a, p)[k..]
    decreases k
  {
    if k > 0 { Drop(a, p + 1, k - 1); }
  }

  /** Cutting the string at its `i`-th character leaves two strings. */
  lemma Cut(a: seq<char>, p: nat, i: nat)
    requires Terminated(a, p) && i < |CString(a, p)|
    ensures var s, b := CString(a, p), a[p + i := '\0'];
            && CString(b, p) == s[..i] && CString(b, p + i + 1) == s[i + 1..]
            && Terminated(b, p) && Terminated(b, p + i + 1)
  {
    var s, b, q := CString(a, p), a[p + i := '\0'], p + |CString(a, p)|;
    CStringSlice(a, p);
    assert b[p..p + i] == s[..i] && b[p + i + 1..q] == s[i + 1..];
    CStringIs(b, p, p + i);
    CStringIs(b, p + i + 1, q);
  }

  /** A string does not depend on what comes before it or after its terminator. */
  lemma SameString(a: seq<char>, b: seq<char>, p: nat)
    requires Terminated(a, p) && |b| == |a|
    requires forall i :: p <= i <= p + |CString(a, p)| ==> b[i] == a[i]
    ensures CString(b, p) == CString(a, p)
  {
    CStringSlice(a, p);
    var q := p + |CString(a, p)|;
    assert b[p..q] == a[p..q];
    CStringIs(b, p, q);
  }

  /** strchr(): the offset of the first `c` in the string at `p`, or -1. */
  method Strchr(a: array<char>, p: nat, c: char) returns (q: int)
    requires Terminated(a[..], p) && c != '\0'
    ensures q == if First(CString(a[..], p), c) == |CString(a[..], p)| then -1 else p + First(CString(a[..], p), c)
  {
    ghost var s := CString(a[..], p);
    CStringSlice(a[..], p);
    q := p;
    while a[q] != '\0' && a[q] != c
      invariant p <= q <= p + |s|
      invariant c !in s[..q - p]
      decreases a.Length - q
    {
      assert s[..q + 1 - p] == s[..q - p] + [a[q]];
      q := q + 1;
    }
    FirstIs(s, c, q - p);
    if a[q] == '\0' {
      q := -1;
    }
  }

  /** Puts a NUL over the first `c` in the string at `p`; -1 if there is none. */
  method CutAt(a: array<char>, p: nat, c: char) returns (q: int)
    requires Terminated(a[..], p) && c != '\0'
    modifies a
    ensures var s := CString(old(a[..]), p);
            var i := First(s, c);
            if i == |s| then q == -1 && a[..] == old(a[..])
            else
              && q == p + i && a[..] == old(a[..])[q := '\0']
              && CString(a[..], p) == s[..i] && CString(a[..], q + 1) == s[i + 1..]
              && Terminated(a[..], p) && Terminated(a[..], q + 1)
  {
    q := Strchr(a, p, c);
    if q != -1 {
      Cut(a[..], p, q - p);
      CStringSlice(a[..], p);
      a[q] := '\0';
    }
  }
}
