/** A small tree that shows that the cases told apart by the theorems about the watch cache
    do occur. */
module DirExamples {
  import opened Options
  import opened Paths
  import opened DirWorld
  import opened DirOps
  import opened DirSync

  /** Directories t, t/a and u. */
  function Tree(): map<nat, Path> {
    map[0 := ["t"], 1 := ["t", "a"], 2 := ["u"]]
  }

  lemma TreeIsOk()
    ensures TreeOk(Tree())
    ensures Join(["t", "a"]) == "t/a" && Split("t/a") == ["t", "a"] && Split("u") == ["u"]
    ensures !(["t", "a"] <= ["u"]) && !(["u"] <= ["t", "a"]) && ["t"] <= ["t", "a"] && !(["t"] <= ["u"])
    ensures !IsDirectory(Tree(), ["u", "x"])
  {
    var dirs := Tree();
    assert dirs[0] == ["t"] && dirs[1][..1] == ["t"];
    SplitJoin(["t", "a"]);
    SplitJoin(["u"]);
    assert ["t", "a"][0] == "t" && ["t"][0] == "t" && ["u"][0] == "u" && ["u", "x"][0] == "u";
  }

  /** Root t/a, and root u as well if `both`. */
  ghost predicate Roots(roots: seq<Option<string>>, both: bool) {
    && 0 < |roots| <= 2 && roots[0] == Some("t/a") && (if both then |roots| == 2 && roots[1] == Some("u") else |roots| == 1)
    && forall s :: Some(s) in roots <==> s == "t/a" || (both && s == "u")
  }

  lemma RootsAreOk(roots: seq<Option<string>>, both: bool)
    requires Roots(roots, both)
    ensures RootsOk(Tree(), roots)
  {
    TreeIsOk();
    assert Tree()[1] == Split("t/a") && Tree()[2] == Split("u");
  }

  /** A monitor of these roots, just built. */
  lemma Built(both: bool, nftw: Order) returns (w: World)
    requires OrderOk(nftw)
    ensures Synced(w) && w.dirs == Tree() && Roots(w.roots, both)
  {
    var roots := if both then [Some("t/a"), Some("u")] else [Some("t/a")];
    assert roots[0] == Some("t/a") && (both ==> roots[1] == Some("u"));
    RootsAreOk(roots, both);
    TreeIsOk();
    ReinitSyncs(World(Tree(), map[], 1, map[], roots), nftw);
    w := Reinit(World(Tree(), map[], 1, map[], roots), nftw);
  }

  lemma TargetWatched(w: World, both: bool)
    requires Synced(w) && w.dirs == Tree() && Roots(w.roots, both)
    ensures 2 in Monitored(w.dirs, w.roots) <==> both
  {
    TreeIsOk();
    assert Covered(w.roots, ["u"]) <==> both by {
      assert both ==> Some("u") in w.roots && Split("u") <= ["u"];
    }
  }

  /** Root t/a is moved into the monitored directory u. */
  lemma RootIntoTreeExample(nftw: Order) returns (w: World, op: Op)
    requires OrderOk(nftw)
    ensures Synced(w) && OpOk(w, op) && RootIntoTree(w, op)
  {
    w := Built(true, nftw);
    op := Rename(1, 2, "x", 7);
    TreeIsOk();
    TargetWatched(w, true);
    assert ["u"] + ["x"] == ["u", "x"];
  }

  /** Directory t, with root t/a below it, is moved to u/x, which is monitored or not. */
  lemma MovesRootBelowExample(monitored: bool, nftw: Order) returns (w: World, op: Op)
    requires OrderOk(nftw)
    ensures Synced(w) && OpOk(w, op) && MovesRootBelow(w, op) && (op.target in w.watch <==> monitored)
  {
    w := Built(monitored, nftw);
    op := Rename(0, 2, "x", 7);
    TreeIsOk();
    TargetWatched(w, monitored);
    assert ["u"] + ["x"] == ["u", "x"];
    assert RootBelow(w.roots, ["t"], "t/a");
  }

  /** Root t/a is moved to u/x, which is not monitored: it is followed. */
  lemma RootMovedOutExample(nftw: Order) returns (w: World, op: Op)
    requires OrderOk(nftw)
    ensures Synced(w) && OpOk(w, op) && op.Rename? && Followed(w, op) && IsRoot(w.roots, Join(w.dirs[op.ino]))
  {
    w := Built(false, nftw);
    op := Rename(1, 2, "x", 7);
    TreeIsOk();
    TargetWatched(w, false);
    assert ["u"] + ["x"] == ["u", "x"];
    forall s ensures !RootBelow(w.roots, ["t", "a"], s) {
      assert Some(s) in w.roots ==> s == "t/a";
    }
  }
}
