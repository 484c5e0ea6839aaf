/** Displaying the recorded forest: the recursion ends, and visits every namespace once. */
module NamespaceDisplay {
  import opened Options
  import opened Namespaces

  /** One displayed line: a namespace and its level of indentation. */
  datatype Visit = Visit(ns: NamespaceID, level: nat)

  /** Ancestors of a namespace in the forest. */
  ghost function Depth(k: Kernel, rank: Rank, ns: NamespaceID): nat
    requires KernelOk(k, rank)
    decreases rank(ns)
  {
    if Above(k, ns).Some? then 1 + Depth(k, rank, Above(k, ns).value) else 0
  }

  /** The recorded namespaces in the subtree of `ns`. */
  ghost function Sub(k: Kernel, rank: Rank, s: Info, ns: NamespaceID): set<NamespaceID>
    requires KernelOk(k, rank)
  {
    set x | x in s.nsList && ns in Chain(k, rank, x)
  }

  // ---------------------------------------------------------------- chains

  lemma {:induction false} ChainRank(k: Kernel, rank: Rank, x: NamespaceID, y: NamespaceID)
    requires KernelOk(k, rank) && y in Chain(k, rank, x)
    ensures rank(y) <= rank(x) && (rank(y) == rank(x) ==> y == x)
    ensures Depth(k, rank, y) <= Depth(k, rank, x)
    ensures Chain(k, rank, y) <= Chain(k, rank, x)
    decreases rank(x)
  {
    if y != x { ChainRank(k, rank, Above(k, x).value, y); }
  }

  /** Two namespaces on one chain that are listed in the same place are the same. */
  lemma {:induction false} ChainSiblings(k: Kernel, rank: Rank, x: NamespaceID, a: NamespaceID, b: NamespaceID)
    requires KernelOk(k, rank) && a in Chain(k, rank, x) && b in Chain(k, rank, x)
    requires Above(k, a).Some? && Above(k, a) == Above(k, b)
    ensures a == b
    decreases rank(x)
  {
    if a == x && b != x {
      ChainRank(k, rank, Above(k, x).value, b);
    } else if b == x && a != x {
      ChainRank(k, rank, Above(k, x).value, a);
    } else if a != x && b != x {
      ChainSiblings(k, rank, Above(k, x).value, a, b);
    }
  }

  /** Between a namespace and a proper ancestor lies a child of that ancestor. */
  lemma {:induction false} ChildBetween(k: Kernel, rank: Rank, x: NamespaceID, ns: NamespaceID) returns (c: NamespaceID)
    requires KernelOk(k, rank) && ns in Chain(k, rank, x) && x != ns
    ensures c in Chain(k, rank, x) && Above(k, c) == Some(ns)
    decreases rank(x)
  {
    var up := Above(k, x).value;
    if up == ns { c := x; }
    else {
      c := ChildBetween(k, rank, up, ns);
    }
  }

  lemma ChildOf(k: Kernel, rank: Rank, s: Info, ns: NamespaceID, c: NamespaceID)
    requires KernelOk(k, rank) && Forest(k, s, {}) && ns in s.nsList && c in s.nsList[ns].children
    ensures c in s.nsList && c != INVIS_USER_NS && Above(k, c) == Some(ns)
    ensures Sub(k, rank, s, c) < Sub(k, rank, s, ns)
    ensures Depth(k, rank, c) == Depth(k, rank, ns) + 1
  {
    assert Listed(k, s, {}, c, ns);
    assert ns in Chain(k, rank, ns) && ns in Chain(k, rank, c);
    forall x | x in Sub(k, rank, s, c) ensures x in Sub(k, rank, s, ns) {
      ChainRank(k, rank, x, c);
    }
    if ns in Sub(k, rank, s, c) { ChainRank(k, rank, ns, c); }
    assert ns in Sub(k, rank, s, ns);
  }

  // ---------------------------------------------------------------- display

  predicate Shown(s: Info, wanted: set<NsType>, ns: NamespaceID)
    requires ns in s.nsList
  {
    s.nsList[ns].nsType == User || s.nsList[ns].nsType in wanted
  }

  /** displayNamespaceTree(): the namespace itself if its type is wanted, then the trees of
      its children in order. Well defined because the recorded lists form a forest. */
  ghost function DisplayTree(k: Kernel, rank: Rank, s: Info, wanted: set<NsType>, ns: NamespaceID, level: nat): seq<Visit>
    requires KernelOk(k, rank) && Forest(k, s, {}) && ns in s.nsList
    decreases Sub(k, rank, s, ns), |s.nsList[ns].children| + 1
  {
    (if Shown(s, wanted, ns) then [Visit(ns, level)] else [])
    + DisplayChildren(k, rank, s, wanted, ns, 0, level + 1)
  }

  ghost function DisplayChildren(k: Kernel, rank: Rank, s: Info, wanted: set<NsType>, ns: NamespaceID, i: nat, level: nat): seq<Visit>
    requires KernelOk(k, rank) && Forest(k, s, {}) && ns in s.nsList && i <= |s.nsList[ns].children|
    decreases Sub(k, rank, s, ns), |s.nsList[ns].children| - i
  {
    if i == |s.nsList[ns].children| then []
    else
      var c := s.nsList[ns].children[i];
      ChildOf(k, rank, s, ns, c);
      DisplayTree(k, rank, s, wanted, c, level) + DisplayChildren(k, rank, s, wanted, ns, i + 1, level)
  }

  /** displayNamespaceHierarchies() without the subtree option. */
  ghost function DisplayHierarchies(k: Kernel, rank: Rank, s: Info, wanted: set<NsType>): seq<Visit>
    requires KernelOk(k, rank) && Forest(k, s, {}) && s.rootNS in s.nsList
  {
    DisplayTree(k, rank, s, wanted, s.rootNS, 0)
    + (if INVIS_USER_NS in s.nsList then DisplayTree(k, rank, s, wanted, INVIS_USER_NS, 0) else [])
  }

  // ---------------------------------------------------------------- exactness

  /** `v` is the line for a recorded namespace of set `m`, at its place in the tree. */
  ghost predicate Expected(k: Kernel, rank: Rank, s: Info, wanted: set<NsType>, m: set<NamespaceID>, base: int, v: Visit)
    requires KernelOk(k, rank)
  {
    v.ns in m && v.ns in s.nsList && Shown(s, wanted, v.ns) && v.level == base + Depth(k, rank, v.ns)
  }

  /** `t` has exactly the expected lines, each once. */
  ghost predicate Exact(k: Kernel, rank: Rank, s: Info, wanted: set<NsType>, m: set<NamespaceID>, base: int, t: seq<Visit>)
    requires KernelOk(k, rank)
  {
    NoDup(t) && forall v :: v in t <==> Expected(k, rank, s, wanted, m, base, v)
  }

  ghost function SubFrom(k: Kernel, rank: Rank, s: Info, ns: NamespaceID, i: nat): set<NamespaceID>
    requires KernelOk(k, rank) && ns in s.nsList && i <= |s.nsList[ns].children|
  {
    set x | x in s.nsList && exists j :: i <= j < |s.nsList[ns].children| && s.nsList[ns].children[j] in Chain(k, rank, x)
  }

  lemma ExactConcat(k: Kernel, rank: Rank, s: Info, wanted: set<NsType>, base: int,
                    m: set<NamespaceID>, t: seq<Visit>, n: set<NamespaceID>, u: seq<Visit>)
    requires KernelOk(k, rank) && m !! n
    requires Exact(k, rank, s, wanted, m, base, t) && Exact(k, rank, s, wanted, n, base, u)
    ensures Exact(k, rank, s, wanted, m + n, base, t + u)
  {
    var w := t + u;
    forall i, j | 0 <= i < j < |w| ensures w[i] != w[j] {
      if i < |t| <= j {
        assert w[i] in t && w[j] in u;
      }
    }
    forall v ensures v in w <==> Expected(k, rank, s, wanted, m + n, base, v) {
      assert v in w <==> v in t || v in u;
    }
  }

  lemma SubFromStep(k: Kernel, rank: Rank, s: Info, ns: NamespaceID, i: nat)
    requires KernelOk(k, rank) && Forest(k, s, {}) && ns in s.nsList && i < |s.nsList[ns].children|
    ensures var c := s.nsList[ns].children[i];
            && Sub(k, rank, s, c) !! SubFrom(k, rank, s, ns, i + 1)
            && SubFrom(k, rank, s, ns, i) == Sub(k, rank, s, c) + SubFrom(k, rank, s, ns, i + 1)
  {
    var cs := s.nsList[ns].children;
    forall x | x in Sub(k, rank, s, cs[i]) ensures x !in SubFrom(k, rank, s, ns, i + 1) {
      if x in SubFrom(k, rank, s, ns, i + 1) {
        var j :| i + 1 <= j < |cs| && cs[j] in Chain(k, rank, x);
        ChildOf(k, rank, s, ns, cs[i]);
        ChildOf(k, rank, s, ns, cs[j]);
        ChainSiblings(k, rank, x, cs[i], cs[j]);
      }
    }
  }

  /** The subtree is the namespace itself and the subtrees of its children. */
  lemma SubIsChildren(k: Kernel, rank: Rank, s: Info, ns: NamespaceID)
    requires KernelOk(k, rank) && Forest(k, s, {}) && ns in s.nsList
    ensures Sub(k, rank, s, ns) == {ns} + SubFrom(k, rank, s, ns, 0)
    ensures ns !in SubFrom(k, rank, s, ns, 0)
  {
    var cs := s.nsList[ns].children;
    assert ns in Chain(k, rank, ns);
    forall x | x in Sub(k, rank, s, ns) && x != ns ensures x in SubFrom(k, rank, s, ns, 0) {
      var c := ChildBetween(k, rank, x, ns);
      ChainRecorded(k, rank, s, x, {});
      assert c in s.nsList;
      assert c == INVIS_USER_NS ==> Above(k, c) == None;
      assert Listed(k, s, {}, c, ns);
      var j :| 0 <= j < |cs| && cs[j] == c;
    }
    forall x | x in SubFrom(k, rank, s, ns, 0) ensures x in Sub(k, rank, s, ns) && x != ns {
      var j :| 0 <= j < |cs| && cs[j] in Chain(k, rank, x);
      ChildOf(k, rank, s, ns, cs[j]);
      assert x in Sub(k, rank, s, cs[j]);
      if x == ns { ChainRank(k, rank, ns, cs[j]); }
    }
  }

  /** Displaying a subtree shows each of its wanted namespaces exactly once, indented by
      its distance from the top of the subtree. */
  lemma {:induction false} DisplayTreeExact(k: Kernel, rank: Rank, s: Info, wanted: set<NsType>, ns: NamespaceID, level: nat)
    requires KernelOk(k, rank) && Forest(k, s, {}) && ns in s.nsList
    ensures Exact(k, rank, s, wanted, Sub(k, rank, s, ns), level - Depth(k, rank, ns),
                  DisplayTree(k, rank, s, wanted, ns, level))
    decreases Sub(k, rank, s, ns), |s.nsList[ns].children| + 1
  {
    var base := level - Depth(k, rank, ns);
    DisplayChildrenExact(k, rank, s, wanted, ns, 0, level + 1);
    SubIsChildren(k, rank, s, ns);
    var own := if Shown(s, wanted, ns) then [Visit(ns, level)] else [];
    assert Exact(k, rank, s, wanted, {ns}, base, own);
    ExactConcat(k, rank, s, wanted, base, {ns}, own, SubFrom(k, rank, s, ns, 0),
                DisplayChildren(k, rank, s, wanted, ns, 0, level + 1));
  }

  lemma {:induction false} DisplayChildrenExact(k: Kernel, rank: Rank, s: Info, wanted: set<NsType>, ns: NamespaceID, i: nat, level: nat)
    requires KernelOk(k, rank) && Forest(k, s, {}) && ns in s.nsList && i <= |s.nsList[ns].children|
    ensures Exact(k, rank, s, wanted, SubFrom(k, rank, s, ns, i), level - Depth(k, rank, ns) - 1,
                  DisplayChildren(k, rank, s, wanted, ns, i, level))
    decreases Sub(k, rank, s, ns), |s.nsList[ns].children| - i
  {
    if i == |s.nsList[ns].children| {
      assert SubFrom(k, rank, s, ns, i) == {};
    } else {
      var c := s.nsList[ns].children[i];
      ChildOf(k, rank, s, ns, c);
      DisplayTreeExact(k, rank, s, wanted, c, level);
      DisplayChildrenExact(k, rank, s, wanted, ns, i + 1, level);
      SubFromStep(k, rank, s, ns, i);
      ExactConcat(k, rank, s, wanted, level - Depth(k, rank, ns) - 1,
                  Sub(k, rank, s, c), DisplayTree(k, rank, s, wanted, c, level),
                  SubFrom(k, rank, s, ns, i + 1), DisplayChildren(k, rank, s, wanted, ns, i + 1, level));
    }
  }

  // ---------------------------------------------------------------- both hierarchies

  lemma {:induction false} ChainEnds(k: Kernel, rank: Rank, s: Info, x: NamespaceID)
    requires KernelOk(k, rank) && Forest(k, s, {}) && x in s.nsList
    ensures || (INVIS_USER_NS in s.nsList && INVIS_USER_NS in Chain(k, rank, x))
            || (s.rootNS in s.nsList && IsTop(k, s.rootNS) && s.rootNS in Chain(k, rank, x))
    ensures !(INVIS_USER_NS in Chain(k, rank, x) && s.rootNS != INVIS_USER_NS && s.rootNS in Chain(k, rank, x))
    decreases rank(x)
  {
    if Above(k, x).Some? {
      assert Listed(k, s, {}, x, Above(k, x).value);
      ChainEnds(k, rank, s, Above(k, x).value);
    }
  }

  /** With a recorded root, the display has every wanted namespace exactly once, at the
      level of its depth. */
  lemma DisplayHierarchiesExact(k: Kernel, rank: Rank, s: Info, wanted: set<NsType>)
    requires KernelOk(k, rank) && Forest(k, s, {}) && s.rootNS != INVIS_USER_NS
    ensures Exact(k, rank, s, wanted, s.nsList.Keys, 0, DisplayHierarchies(k, rank, s, wanted))
  {
    var r, v := Sub(k, rank, s, s.rootNS), Sub(k, rank, s, INVIS_USER_NS);
    DisplayTreeExact(k, rank, s, wanted, s.rootNS, 0);
    assert Depth(k, rank, s.rootNS) == 0 && Depth(k, rank, INVIS_USER_NS) == 0;
    forall x | x in s.nsList ensures x in r + v && !(x in r && x in v) {
      ChainEnds(k, rank, s, x);
    }
    assert r + v == s.nsList.Keys;
    if INVIS_USER_NS in s.nsList {
      DisplayTreeExact(k, rank, s, wanted, INVIS_USER_NS, 0);
      ExactConcat(k, rank, s, wanted, 0, r, DisplayTree(k, rank, s, wanted, s.rootNS, 0),
                  v, DisplayTree(k, rank, s, wanted, INVIS_USER_NS, 0));
    } else {
      forall x | x in v ensures false {
        ChainRecorded(k, rank, s, x, {});
      }
      assert r == s.nsList.Keys;
    }
  }

  /** When only namespaces with an invisible owner have been recorded, no root is known,
      `rootNS` still has its initial value, which is the key of the invisible entry, and
      everything is displayed twice. */
  lemma NoRootDisplaysTwice(k: Kernel, rank: Rank, s: Info, wanted: set<NsType>)
    requires KernelOk(k, rank) && Forest(k, s, {}) && s.nsList.Keys != {} && s.rootNS == INVIS_USER_NS
    ensures INVIS_USER_NS in s.nsList
    ensures var t := DisplayTree(k, rank, s, wanted, INVIS_USER_NS, 0);
            && DisplayHierarchies(k, rank, s, wanted) == t + t
            && Exact(k, rank, s, wanted, s.nsList.Keys, 0, t)
            && Visit(INVIS_USER_NS, 0) in t
  {
    forall x | x in s.nsList ensures INVIS_USER_NS in s.nsList && x in Sub(k, rank, s, INVIS_USER_NS) {
      ChainEnds(k, rank, s, x);
    }
    var x :| x in s.nsList;
    assert Sub(k, rank, s, INVIS_USER_NS) == s.nsList.Keys;
    DisplayTreeExact(k, rank, s, wanted, INVIS_USER_NS, 0);
    assert Depth(k, rank, INVIS_USER_NS) == 0;
    assert Expected(k, rank, s, wanted, s.nsList.Keys, 0, Visit(INVIS_USER_NS, 0));
  }

  /** The display shows each line once exactly when a root has been recorded. */
  lemma DisplayedOnce(k: Kernel, rank: Rank, s: Info, wanted: set<NsType>)
    requires KernelOk(k, rank) && Forest(k, s, {}) && s.rootNS in s.nsList
    ensures Exact(k, rank, s, wanted, s.nsList.Keys, 0, DisplayHierarchies(k, rank, s, wanted))
       <==> s.rootNS != INVIS_USER_NS
  {
    if s.rootNS != INVIS_USER_NS {
      DisplayHierarchiesExact(k, rank, s, wanted);
    } else {
      NoRootDisplaysTwice(k, rank, s, wanted);
      var t := DisplayTree(k, rank, s, wanted, INVIS_USER_NS, 0);
      var i :| 0 <= i < |t| && t[i] == Visit(INVIS_USER_NS, 0);
      assert (t + t)[i] == (t + t)[|t| + i];
    }
  }

  // ---------------------------------------------------------------- in terms of the calls

  /** Some visible ancestor of the namespace is the top of the hierarchy. */
  ghost predicate ReachesTop(k: Kernel, rank: Rank, ns: NamespaceID)
    requires KernelOk(k, rank)
  {
    exists t :: t in Chain(k, rank, ns) && IsTop(k, t)
  }

  ghost predicate SomeReachesTop(k: Kernel, rank: Rank, adds: seq<(NamespaceID, int)>)
    requires KernelOk(k, rank)
  {
    exists i :: 0 <= i < |adds| && ReachesTop(k, rank, adds[i].0)
  }

  /** A root is recorded exactly when one of the namespaces added leads up to it. */
  lemma RootKnownExactly(k: Kernel, rank: Rank, adds: seq<(NamespaceID, int)>)
    requires KernelOk(k, rank) && forall a :: a in adds ==> a.0 in k.nsType
    ensures AddAll(k, rank, adds).rootNS != INVIS_USER_NS <==> SomeReachesTop(k, rank, adds)
  {
    var s := AddAll(k, rank, adds);
    AddAllForest(k, rank, adds);
    if s.rootNS != INVIS_USER_NS {
      var i :| 0 <= i < |adds| && s.rootNS in Chain(k, rank, adds[i].0);
      assert ReachesTop(k, rank, adds[i].0);
    }
    if SomeReachesTop(k, rank, adds) {
      var i :| 0 <= i < |adds| && ReachesTop(k, rank, adds[i].0);
      var t :| t in Chain(k, rank, adds[i].0) && IsTop(k, t);
      assert t in Chains(k, rank, adds);
    }
  }

  /** After any calls, everything wanted is displayed exactly once, at its depth, if and only
      if one of the namespaces added leads up to the top of the hierarchy. */
  lemma DisplayedOnceByCalls(k: Kernel, rank: Rank, adds: seq<(NamespaceID, int)>, wanted: set<NsType>)
    requires KernelOk(k, rank) && adds != [] && forall a :: a in adds ==> a.0 in k.nsType
    ensures var s := AddAll(k, rank, adds);
            Forest(k, s, {}) && s.rootNS in s.nsList
            && (Exact(k, rank, s, wanted, s.nsList.Keys, 0, DisplayHierarchies(k, rank, s, wanted))
                <==> SomeReachesTop(k, rank, adds))
  {
    var s := AddAll(k, rank, adds);
    AddAllForest(k, rank, adds);
    RootKnownExactly(k, rank, adds);
    assert adds[0].0 in Chain(k, rank, adds[0].0);
    assert adds[0].0 in Chains(k, rank, adds);
    if s.rootNS == INVIS_USER_NS { NoRootDisplaysTwice(k, rank, s, wanted); }
    DisplayedOnce(k, rank, s, wanted);
  }

  /** The case without a root: one network namespace whose owner is not visible. */
  lemma NoRootExample() returns (k: Kernel, rank: Rank, adds: seq<(NamespaceID, int)>)
    ensures KernelOk(k, rank) && adds != [] && forall a :: a in adds ==> a.0 in k.nsType
    ensures AddAll(k, rank, adds).rootNS == INVIS_USER_NS && AddAll(k, rank, adds).nsList.Keys != {}
  {
    var ns := NamespaceID(1, 1);
    k := Kernel(map[ns := Net], map[], false);
    rank := x => if x == ns then 1 else 0;
    adds := [(ns, 1)];
    AddAllForest(k, rank, adds);
    RootKnownExactly(k, rank, adds);
    assert ns in Chain(k, rank, ns) && adds[0].0 == ns;
    assert ns in Chains(k, rank, adds);
  }
}
