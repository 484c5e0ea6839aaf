/** The order of the displayed lines: parents before their descendants, each subtree in one
    piece, siblings in the order in which they were recorded. */
module DisplayOrder {
  import opened Options
  import opened Namespaces
  import opened NamespaceDisplay

  /** `x` lies below the child number `a` of `p`, and `y` below the later child number `b`. */
  ghost predicate Fork(k: Kernel, rank: Rank, s: Info, p: NamespaceID, a: nat, b: nat, x: NamespaceID, y: NamespaceID)
    requires KernelOk(k, rank)
  {
    && p in s.nsList && a < b < |s.nsList[p].children|
    && s.nsList[p].children[a] in Chain(k, rank, x)
    && s.nsList[p].children[b] in Chain(k, rank, y)
  }

  /** `x` is a proper ancestor of `y`, or comes earlier where their chains part. */
  ghost predicate Before(k: Kernel, rank: Rank, s: Info, x: NamespaceID, y: NamespaceID)
    requires KernelOk(k, rank)
  {
    || (x != y && x in Chain(k, rank, y))
    || exists p, a: nat, b: nat :: Fork(k, rank, s, p, a, b, x, y)
  }

  ghost predicate Sorted(k: Kernel, rank: Rank, s: Info, t: seq<Visit>)
    requires KernelOk(k, rank)
  {
    forall i, j :: 0 <= i < j < |t| ==> Before(k, rank, s, t[i].ns, t[j].ns)
  }

  // ---------------------------------------------------------------- the display is sorted

  lemma SortedConcat(k: Kernel, rank: Rank, s: Info, t: seq<Visit>, u: seq<Visit>)
    requires KernelOk(k, rank) && Sorted(k, rank, s, t) && Sorted(k, rank, s, u)
    requires forall v, w :: v in t && w in u ==> Before(k, rank, s, v.ns, w.ns)
    ensures Sorted(k, rank, s, t + u)
  {
    forall i, j | 0 <= i < j < |t + u| ensures Before(k, rank, s, (t + u)[i].ns, (t + u)[j].ns) {
      if i < |t| <= j { assert (t + u)[i] in t && (t + u)[j] in u; }
    }
  }

  lemma {:induction false} DisplayTreeSorted(k: Kernel, rank: Rank, s: Info, wanted: set<NsType>, ns: NamespaceID, level: nat)
    requires KernelOk(k, rank) && Forest(k, s, {}) && ns in s.nsList
    ensures Sorted(k, rank, s, DisplayTree(k, rank, s, wanted, ns, level))
    decreases Sub(k, rank, s, ns), |s.nsList[ns].children| + 1
  {
    var own := if Shown(s, wanted, ns) then [Visit(ns, level)] else [];
    var rest := DisplayChildren(k, rank, s, wanted, ns, 0, level + 1);
    DisplayChildrenSorted(k, rank, s, wanted, ns, 0, level + 1);
    DisplayChildrenExact(k, rank, s, wanted, ns, 0, level + 1);
    SubIsChildren(k, rank, s, ns);
    forall v, w | v in own && w in rest ensures Before(k, rank, s, v.ns, w.ns) {
      assert w.ns in SubFrom(k, rank, s, ns, 0);
      assert w.ns in Sub(k, rank, s, ns);
    }
    SortedConcat(k, rank, s, own, rest);
  }

  lemma {:induction false} DisplayChildrenSorted(k: Kernel, rank: Rank, s: Info, wanted: set<NsType>, ns: NamespaceID, i: nat, level: nat)
    requires KernelOk(k, rank) && Forest(k, s, {}) && ns in s.nsList && i <= |s.nsList[ns].children|
    ensures Sorted(k, rank, s, DisplayChildren(k, rank, s, wanted, ns, i, level))
    decreases Sub(k, rank, s, ns), |s.nsList[ns].children| - i
  {
    if i < |s.nsList[ns].children| {
      var c := s.nsList[ns].children[i];
      ChildOf(k, rank, s, ns, c);
      var first, rest := DisplayTree(k, rank, s, wanted, c, level), DisplayChildren(k, rank, s, wanted, ns, i + 1, level);
      DisplayTreeSorted(k, rank, s, wanted, c, level);
      DisplayChildrenSorted(k, rank, s, wanted, ns, i + 1, level);
      DisplayTreeExact(k, rank, s, wanted, c, level);
      DisplayChildrenExact(k, rank, s, wanted, ns, i + 1, level);
      forall v, w | v in first && w in rest ensures Before(k, rank, s, v.ns, w.ns) {
        LaterChild(k, rank, s, ns, i, v.ns, w.ns);
      }
      SortedConcat(k, rank, s, first, rest);
    }
  }

  lemma LaterChild(k: Kernel, rank: Rank, s: Info, ns: NamespaceID, i: nat, x: NamespaceID, y: NamespaceID)
    requires KernelOk(k, rank) && ns in s.nsList && i < |s.nsList[ns].children|
    requires x in Sub(k, rank, s, s.nsList[ns].children[i]) && y in SubFrom(k, rank, s, ns, i + 1)
    ensures Before(k, rank, s, x, y)
  {
    var cs := s.nsList[ns].children;
    var j :| i + 1 <= j < |cs| && cs[j] in Chain(k, rank, y);
    assert Fork(k, rank, s, ns, i, j, x, y);
  }

  // ---------------------------------------------------------------- the order is one

  /** The ancestors of a namespace are ancestors of one another. */
  lemma {:induction false} ChainLinear(k: Kernel, rank: Rank, x: NamespaceID, p: NamespaceID, q: NamespaceID)
    requires KernelOk(k, rank) && p in Chain(k, rank, x) && q in Chain(k, rank, x)
    ensures p in Chain(k, rank, q) || q in Chain(k, rank, p)
    decreases rank(x)
  {
    if p != x && q != x { ChainLinear(k, rank, Above(k, x).value, p, q); }
  }

  /** The two sides of a fork lie below different children of the same namespace. */
  lemma ForkIs(k: Kernel, rank: Rank, s: Info, p: NamespaceID, a: nat, b: nat, x: NamespaceID, y: NamespaceID)
    requires KernelOk(k, rank) && Forest(k, s, {}) && Fork(k, rank, s, p, a, b, x, y)
    ensures var ca, cb := s.nsList[p].children[a], s.nsList[p].children[b];
            && ca != cb && Above(k, ca) == Some(p) && Above(k, cb) == Some(p)
            && p in Chain(k, rank, x) && p in Chain(k, rank, y)
  {
    var ca, cb := s.nsList[p].children[a], s.nsList[p].children[b];
    ChildOf(k, rank, s, p, ca);
    ChildOf(k, rank, s, p, cb);
    assert p in Chain(k, rank, p) && p in Chain(k, rank, ca) && p in Chain(k, rank, cb);
    ChainRank(k, rank, x, ca);
    ChainRank(k, rank, y, cb);
  }

  /** Where two chains part, nothing further down is on both. */
  lemma ForkIsLast(k: Kernel, rank: Rank, s: Info, p: NamespaceID, a: nat, b: nat, x: NamespaceID, y: NamespaceID, q: NamespaceID)
    requires KernelOk(k, rank) && Forest(k, s, {}) && Fork(k, rank, s, p, a, b, x, y)
    requires q in Chain(k, rank, x) && q in Chain(k, rank, y)
    ensures q in Chain(k, rank, p)
  {
    ForkIs(k, rank, s, p, a, b, x, y);
    ChainLinear(k, rank, x, p, q);
    if q !in Chain(k, rank, p) {
      var e := ChildBetween(k, rank, q, p);
      ChainRank(k, rank, x, q);
      ChainRank(k, rank, y, q);
      ChainSiblings(k, rank, x, e, s.nsList[p].children[a]);
      ChainSiblings(k, rank, y, e, s.nsList[p].children[b]);
    }
  }

  lemma MutualAncestors(k: Kernel, rank: Rank, p: NamespaceID, q: NamespaceID)
    requires KernelOk(k, rank) && p in Chain(k, rank, q) && q in Chain(k, rank, p)
    ensures p == q
  {
    ChainRank(k, rank, p, q);
    ChainRank(k, rank, q, p);
  }

  /** One fork decides: it cannot be the other way round elsewhere. */
  lemma ForkOneWay(k: Kernel, rank: Rank, s: Info, p: NamespaceID, a: nat, b: nat, q: NamespaceID, c: nat, d: nat,
                   x: NamespaceID, y: NamespaceID)
    requires KernelOk(k, rank) && Forest(k, s, {})
    requires Fork(k, rank, s, p, a, b, x, y)
    ensures !Fork(k, rank, s, q, c, d, y, x)
  {
    if Fork(k, rank, s, q, c, d, y, x) {
      ForkIs(k, rank, s, p, a, b, x, y);
      ForkIs(k, rank, s, q, c, d, y, x);
      ForkIsLast(k, rank, s, p, a, b, x, y, q);
      ForkIsLast(k, rank, s, q, c, d, y, x, p);
      MutualAncestors(k, rank, p, q);
      var cs := s.nsList[p].children;
      ChainSiblings(k, rank, x, cs[a], cs[d]);
      ChainSiblings(k, rank, y, cs[b], cs[c]);
    }
  }

  lemma ForkNoAncestor(k: Kernel, rank: Rank, s: Info, p: NamespaceID, a: nat, b: nat, x: NamespaceID, y: NamespaceID)
    requires KernelOk(k, rank) && Forest(k, s, {}) && Fork(k, rank, s, p, a, b, x, y)
    ensures x !in Chain(k, rank, y) && y !in Chain(k, rank, x)
  {
    ForkIs(k, rank, s, p, a, b, x, y);
    var cs := s.nsList[p].children;
    if x in Chain(k, rank, y) {
      ChainRank(k, rank, y, x);
      ChainSiblings(k, rank, y, cs[a], cs[b]);
    }
    if y in Chain(k, rank, x) {
      ChainRank(k, rank, x, y);
      ChainSiblings(k, rank, x, cs[a], cs[b]);
    }
  }

  lemma BeforeOneWay(k: Kernel, rank: Rank, s: Info, x: NamespaceID, y: NamespaceID)
    requires KernelOk(k, rank) && Forest(k, s, {}) && Before(k, rank, s, x, y)
    ensures x != y && !Before(k, rank, s, y, x)
  {
    assert x in Chain(k, rank, x);
    if p, a: nat, b: nat :| Fork(k, rank, s, p, a, b, x, y) {
      ForkNoAncestor(k, rank, s, p, a, b, x, y);
      forall q, c: nat, d: nat ensures !Fork(k, rank, s, q, c, d, y, x) {
        ForkOneWay(k, rank, s, p, a, b, q, c, d, x, y);
      }
    } else {
      if y in Chain(k, rank, x) { MutualAncestors(k, rank, x, y); }
      forall q, c: nat, d: nat ensures !Fork(k, rank, s, q, c, d, y, x) {
        if Fork(k, rank, s, q, c, d, y, x) { ForkNoAncestor(k, rank, s, q, c, d, y, x); }
      }
    }
  }

  // ---------------------------------------------------------------- what it means

  /** What is above one side of a fork and not above the other is below the fork. */
  lemma BelowFork(k: Kernel, rank: Rank, s: Info, p: NamespaceID, u: nat, v: nat, a: NamespaceID, y: NamespaceID, x: NamespaceID)
    requires KernelOk(k, rank) && Forest(k, s, {}) && Fork(k, rank, s, p, u, v, a, y)
    requires x in Chain(k, rank, a) && x !in Chain(k, rank, y)
    ensures s.nsList[p].children[u] in Chain(k, rank, x)
  {
    ForkIs(k, rank, s, p, u, v, a, y);
    var c := s.nsList[p].children[u];
    ChainLinear(k, rank, a, x, c);
    if c !in Chain(k, rank, x) {
      assert x in Chain(k, rank, p);
      ChainRank(k, rank, y, p);
    }
  }

  /** If `x` is above `a` but not above `y`, and `a` comes before `y`, then so does all that
      is below `x`. */
  lemma WholeSubtreeBefore(k: Kernel, rank: Rank, s: Info, x: NamespaceID, a: NamespaceID, b: NamespaceID, y: NamespaceID)
    requires KernelOk(k, rank) && Forest(k, s, {}) && Before(k, rank, s, a, y)
    requires x in Chain(k, rank, a) && x in Chain(k, rank, b) && x !in Chain(k, rank, y)
    ensures Before(k, rank, s, b, y)
  {
    if a in Chain(k, rank, y) {
      ChainRank(k, rank, y, a);
    } else {
      var p, u: nat, v: nat :| Fork(k, rank, s, p, u, v, a, y);
      BelowFork(k, rank, s, p, u, v, a, y, x);
      ChainRank(k, rank, b, x);
      assert Fork(k, rank, s, p, u, v, b, y);
    }
  }

  /** A shown ancestor is displayed before its descendants. */
  ghost predicate AncestorsFirst(k: Kernel, rank: Rank, s: Info, wanted: set<NsType>, m: set<NamespaceID>, t: seq<Visit>)
    requires KernelOk(k, rank)
  {
    forall j, p :: 0 <= j < |t| && p in m && p in s.nsList && Shown(s, wanted, p)
                   && p != t[j].ns && p in Chain(k, rank, t[j].ns) ==>
      exists i :: 0 <= i < j && t[i].ns == p
  }

  /** The lines of each subtree stand together. */
  ghost predicate Contiguous(k: Kernel, rank: Rank, t: seq<Visit>)
    requires KernelOk(k, rank)
  {
    forall i, j, l, x :: Between(k, rank, t, i, j, l, x) ==> x in Chain(k, rank, t[j].ns)
  }

  ghost predicate Between(k: Kernel, rank: Rank, t: seq<Visit>, i: int, j: int, l: int, x: NamespaceID)
    requires KernelOk(k, rank)
  {
    0 <= i < j < l < |t| && x in Chain(k, rank, t[i].ns) && x in Chain(k, rank, t[l].ns)
  }

  /** All that is below a child comes before all that is below a later child. */
  ghost predicate SiblingsInOrder(k: Kernel, rank: Rank, s: Info, t: seq<Visit>)
    requires KernelOk(k, rank)
  {
    forall i, j, p, a: nat, b: nat ::
      0 <= i < |t| && 0 <= j < |t| && Fork(k, rank, s, p, a, b, t[i].ns, t[j].ns) ==> i < j
  }

  /** The display of a tree: ancestors first, subtrees in one piece, siblings in order. */
  lemma DisplayTreeOrder(k: Kernel, rank: Rank, s: Info, wanted: set<NsType>, ns: NamespaceID, level: nat)
    requires KernelOk(k, rank) && Forest(k, s, {}) && ns in s.nsList
    ensures var t := DisplayTree(k, rank, s, wanted, ns, level);
            && AncestorsFirst(k, rank, s, wanted, Sub(k, rank, s, ns), t)
            && Contiguous(k, rank, t)
            && SiblingsInOrder(k, rank, s, t)
  {
    var t := DisplayTree(k, rank, s, wanted, ns, level);
    DisplayTreeSorted(k, rank, s, wanted, ns, level);
    DisplayTreeExact(k, rank, s, wanted, ns, level);
    forall j, p | 0 <= j < |t| && p in Sub(k, rank, s, ns) && Shown(s, wanted, p)
                  && p in Chain(k, rank, t[j].ns) && p != t[j].ns
      ensures exists i :: 0 <= i < j && t[i].ns == p
    {
      AncestorShown(k, rank, s, wanted, ns, level, t, j, p);
    }
    forall i, j, l, x | Between(k, rank, t, i, j, l, x) ensures x in Chain(k, rank, t[j].ns) {
      if x !in Chain(k, rank, t[j].ns) {
        WholeSubtreeBefore(k, rank, s, x, t[i].ns, t[l].ns, t[j].ns);
        BeforeOneWay(k, rank, s, t[j].ns, t[l].ns);
      }
    }
    forall i, j, p, a: nat, b: nat | 0 <= i < |t| && 0 <= j < |t| && Fork(k, rank, s, p, a, b, t[i].ns, t[j].ns)
      ensures i < j
    {
      BeforeOneWay(k, rank, s, t[i].ns, t[j].ns);
    }
  }

  lemma AncestorShown(k: Kernel, rank: Rank, s: Info, wanted: set<NsType>, ns: NamespaceID, level: nat,
                      t: seq<Visit>, j: nat, p: NamespaceID)
    requires KernelOk(k, rank) && Forest(k, s, {}) && ns in s.nsList && Sorted(k, rank, s, t)
    requires Exact(k, rank, s, wanted, Sub(k, rank, s, ns), level - Depth(k, rank, ns), t)
    requires j < |t| && p in Sub(k, rank, s, ns) && Shown(s, wanted, p)
    requires p in Chain(k, rank, t[j].ns) && p != t[j].ns
    ensures exists i :: 0 <= i < j && t[i].ns == p
  {
    ChainRank(k, rank, p, ns);
    var v := Visit(p, level - Depth(k, rank, ns) + Depth(k, rank, p));
    assert Expected(k, rank, s, wanted, Sub(k, rank, s, ns), level - Depth(k, rank, ns), v);
    var i :| 0 <= i < |t| && t[i] == v;
    assert Before(k, rank, s, p, t[j].ns);
    BeforeOneWay(k, rank, s, p, t[j].ns);
  }

  /** Of the two trees displayed, that of the root comes first. */
  lemma DisplayHierarchiesOrder(k: Kernel, rank: Rank, s: Info, wanted: set<NsType>)
    requires KernelOk(k, rank) && Forest(k, s, {}) && s.rootNS in s.nsList && s.rootNS != INVIS_USER_NS
    ensures var t := DisplayHierarchies(k, rank, s, wanted);
            forall i, j :: 0 <= i < j < |t| ==>
              || Before(k, rank, s, t[i].ns, t[j].ns)
              || (s.rootNS in Chain(k, rank, t[i].ns) && INVIS_USER_NS in Chain(k, rank, t[j].ns))
  {
    var t, u := DisplayTree(k, rank, s, wanted, s.rootNS, 0), DisplayHierarchies(k, rank, s, wanted);
    DisplayTreeSorted(k, rank, s, wanted, s.rootNS, 0);
    DisplayTreeExact(k, rank, s, wanted, s.rootNS, 0);
    if INVIS_USER_NS in s.nsList {
      DisplayTreeSorted(k, rank, s, wanted, INVIS_USER_NS, 0);
      DisplayTreeExact(k, rank, s, wanted, INVIS_USER_NS, 0);
      var v := DisplayTree(k, rank, s, wanted, INVIS_USER_NS, 0);
      forall i, j | 0 <= i < j < |u|
        ensures Before(k, rank, s, u[i].ns, u[j].ns)
                || (s.rootNS in Chain(k, rank, u[i].ns) && INVIS_USER_NS in Chain(k, rank, u[j].ns))
      {
        if i < |t| <= j { assert u[i] in t && u[j] in v; }
      }
    }
  }

  // ---------------------------------------------------------------- the order of recording

  /** Lists of children only grow at their ends. */
  ghost predicate Grown(s: Info, r: Info) {
    forall p :: p in s.nsList ==> p in r.nsList && s.nsList[p].children <= r.nsList[p].children
  }

  lemma {:induction false} AddNamespaceGrows(k: Kernel, rank: Rank, s: Info, ns: NamespaceID, pid: int)
    requires KernelOk(k, rank) && ns in k.nsType
    ensures Grown(s, AddNamespace(k, rank, s, ns, pid))
    decreases rank(ns), 1
  {
    if ns !in s.nsList { AddToListGrows(k, rank, s, ns); }
  }

  lemma {:induction false} AddToListGrows(k: Kernel, rank: Rank, s: Info, ns: NamespaceID)
    requires KernelOk(k, rank) && ns in k.nsType && ns !in s.nsList
    ensures Grown(s, AddNamespaceToList(k, rank, s, ns))
    decreases rank(ns), 0
  {
    if ns in k.up {
      assert Above(k, ns) == Some(k.up[ns]);
      AddNamespaceGrows(k, rank, NewEntry(s, ns, k.nsType[ns]), k.up[ns], -1);
    }
  }

  /** Over any calls, what was recorded as a child stays where it is in its list, and what
      comes later is put after it. */
  lemma {:induction false} ChildrenInOrder(k: Kernel, rank: Rank, adds: seq<(NamespaceID, int)>, n: nat)
    requires KernelOk(k, rank) && (forall a :: a in adds ==> a.0 in k.nsType) && n <= |adds|
    ensures Grown(AddAll(k, rank, adds[..n]), AddAll(k, rank, adds))
    decreases |adds|
  {
    if n == |adds| {
      assert adds[..n] == adds;
    } else {
      var m := |adds| - 1;
      assert adds[..m][..n] == adds[..n];
      ChildrenInOrder(k, rank, adds[..m], n);
      AddNamespaceGrows(k, rank, AddAll(k, rank, adds[..m]), adds[m].0, adds[m].1);
    }
  }
}
