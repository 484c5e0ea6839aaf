/** Pathnames as C strings, which is all that `inotify_dtree.c` handles, and as lists of
    components, of which the file-system side of the model speaks. The two views agree. */
module Paths {
  import opened Sequences

  type Path = seq<string>

  predicate NoSlash(s: string) {
    '/' !in s
  }

  /** A pathname as a list of components; "/tmp/x" is ["", "tmp", "x"]. */
  predicate WellFormed(p: Path) {
    p != [] && forall k :: 0 <= k < |p| ==> NoSlash(p[k])
  }

  function Join(p: Path): string {
    if p == [] then ""
    else if |p| == 1 then p[0]
    else Join(p[..|p|-1]) + "/" + p[|p|-1]
  }

  /** `path[i]` of a NUL-terminated string. */
  function CharAt(s: string, i: nat): char {
    if i < |s| then s[i] else '\0'
  }

  /** The test `strncmp(full, path, len) == 0 && (path[len] == '/' || path[len] == '\0')`
      with `len = strlen(full)`. */
  predicate Under(full: string, path: string) {
    && |full| <= |path|
    && path[..|full|] == full
    && (|path| == |full| || CharAt(path, |full|) == '/')
  }

  /** What `snprintf("%s%s", newPrefix, &path[len])` leaves in a matching slot. */
  function Rewrite(full: string, newPrefix: string, path: string): string {
    if Under(full, path) then newPrefix + path[|full|..] else path
  }

  /** The same renaming on component lists: the subtree at `src` is grafted at `dst`. */
  function Graft(src: Path, dst: Path, p: Path): Path {
    if src <= p then dst + p[|src|..] else p
  }

  lemma JoinSnoc(p: Path, name: string)
    requires p != []
    ensures Join(p + [name]) == Join(p) + "/" + name
  {
    var q := p + [name];
    assert q[..|q|-1] == p;
  }

  lemma LaterSlash(u: string, x: string, i: nat)
    requires |u| < i < |u + "/" + x| && (u + "/" + x)[i] == '/'
    ensures !NoSlash(x)
  {
    assert x[i - |u| - 1] == '/';
  }

  lemma LastSlash(u: string, x: string, v: string, y: string)
    requires NoSlash(x) && NoSlash(y)
    requires u + "/" + x == v + "/" + y
    ensures u == v && x == y
  {
    var s, t := u + "/" + x, v + "/" + y;
    if |u| < |v| {
      LaterSlash(u, x, |v|);
    } else if |v| < |u| {
      LaterSlash(v, y, |u|);
    } else {
      assert s[..|u|] == u && t[..|v|] == v;
      assert s[|u|+1..] == x && t[|v|+1..] == y;
    }
  }

  lemma JoinHasSlash(p: Path)
    requires |p| > 1
    ensures '/' in Join(p)
  {
    assert Join(p)[|Join(p[..|p|-1])|] == '/';
  }

  /** Distinct component lists have distinct pathnames. */
  lemma {:induction false} JoinInjective(p: Path, q: Path)
    requires WellFormed(p) && WellFormed(q)
    requires Join(p) == Join(q)
    ensures p == q
  {
    if |p| == 1 {
      if |q| > 1 { JoinHasSlash(q); }
    } else if |q| == 1 {
      JoinHasSlash(p);
    } else {
      var p', q' := p[..|p|-1], q[..|q|-1];
      LastSlash(Join(p'), p[|p|-1], Join(q'), q[|q|-1]);
      JoinInjective(p', q');
      assert p == p' + [p[|p|-1]] && q == q' + [q[|q|-1]];
    }
  }

  lemma UnderExtends(s: string, t: string, x: string)
    requires Under(s, t)
    ensures Under(s, t + "/" + x)
  {
    var r := t + "/" + x;
    assert r[..|s|] == t[..|s|];
  }

  /** The prefix test on strings is exactly "the same directory or a descendant". */
  lemma {:induction false} PrefixTestIsDescendant(p: Path, q: Path)
    requires WellFormed(p) && WellFormed(q)
    ensures Under(Join(p), Join(q)) <==> p <= q
    decreases |q|
  {
    if p == q {
    } else if |q| == 1 {
      if Under(Join(p), Join(q)) {
        assert Join(q)[..|Join(p)|] == Join(p);
        if |Join(p)| == |Join(q)| { JoinInjective(p, q); }
        assert false;
      }
    } else {
      var q', x := q[..|q|-1], q[|q|-1];
      var s, u := Join(p), Join(q');
      assert Join(q) == u + "/" + x;
      PrefixTestIsDescendant(p, q');
      if Under(s, Join(q)) {
        if |s| == |Join(q)| {
          assert s == Join(q);
          JoinInjective(p, q);
        } else if |s| == |u| {
          assert s == u;
          JoinInjective(p, q');
        } else if |s| < |u| {
          assert u[..|s|] == Join(q)[..|s|];
          assert Under(s, u);
        }
        assert p <= q' || p == q;
      }
      if p <= q {
        assert p <= q';
        UnderExtends(s, u, x);
      }
    }
  }

  /** What a list of further components adds to a pathname. */
  function Suffix(tail: Path): string {
    if tail == [] then "" else Suffix(tail[..|tail|-1]) + "/" + tail[|tail|-1]
  }

  lemma {:induction false} JoinAppend(p: Path, tail: Path)
    requires p != []
    ensures Join(p + tail) == Join(p) + Suffix(tail)
    decreases |tail|
  {
    if tail == [] {
      assert p + tail == p;
    } else {
      var t', x := tail[..|tail|-1], tail[|tail|-1];
      assert p + tail == (p + t') + [x];
      JoinAppend(p, t');
      JoinSnoc(p + t', x);
      Associate(Join(p), Suffix(t'), "/" + x);
      assert Suffix(t') + "/" + x == Suffix(t') + ("/" + x);
      assert Join(p + t') + "/" + x == Join(p + t') + ("/" + x);
    }
  }

  /** Rewriting the string is grafting the component list. */
  lemma RewriteIsGraft(src: Path, dst: Path, p: Path)
    requires WellFormed(src) && WellFormed(dst) && WellFormed(p)
    ensures Rewrite(Join(src), Join(dst), Join(p)) == Join(Graft(src, dst, p))
  {
    PrefixTestIsDescendant(src, p);
    if src <= p {
      var tail := p[|src|..];
      assert p == src + tail;
      JoinAppend(src, tail);
      JoinAppend(dst, tail);
      Parts(Join(src), Suffix(tail));
    }
  }

  /** Grafting keeps distinct paths distinct as long as nothing lives at the target. */
  lemma GraftInjective(src: Path, dst: Path, p: Path, q: Path)
    requires src != [] && dst != []
    requires !(dst <= p) || src <= p
    requires !(dst <= q) || src <= q
    requires Graft(src, dst, p) == Graft(src, dst, q)
    ensures p == q
  {
    if src <= p && src <= q {
      assert p == src + p[|src|..] && q == src + q[|src|..];
      assert (dst + p[|src|..])[|dst|..] == p[|src|..];
      assert (dst + q[|src|..])[|dst|..] == q[|src|..];
    }
  }

  /** The components of a string: what it is the pathname of. */
  ghost function Split(s: string): (p: Path)
    ensures WellFormed(p) && Join(p) == s
  {
    SplitExists(s);
    var p :| WellFormed(p) && Join(p) == s;
    p
  }

  /** Every string is the pathname of some components: cut it at every slash. */
  lemma {:induction false} SplitExists(s: string)
    ensures exists p :: WellFormed(p) && Join(p) == s
  {
    if NoSlash(s) {
      assert WellFormed([s]) && Join([s]) == s;
    } else {
      var i := LastSlashIndex(s);
      SplitExists(s[..i]);
      var p :| WellFormed(p) && Join(p) == s[..i];
      JoinSnoc(p, s[i+1..]);
      assert s == s[..i] + "/" + s[i+1..];
      assert WellFormed(p + [s[i+1..]]);
    }
  }

  function LastSlashIndex(s: string): (i: nat)
    requires !NoSlash(s)
    ensures i < |s| && s[i] == '/' && NoSlash(s[i+1..])
  {
    if s[|s|-1] == '/' then |s| - 1
    else
      assert s == s[..|s|-1] + [s[|s|-1]];
      var i := LastSlashIndex(s[..|s|-1]);
      assert s[i+1..] == s[..|s|-1][i+1..] + [s[|s|-1]];
      i
  }

  lemma SplitJoin(p: Path)
    requires WellFormed(p)
    ensures Split(Join(p)) == p
  {
    JoinInjective(Split(Join(p)), p);
  }
}
