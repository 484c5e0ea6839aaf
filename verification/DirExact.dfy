/** Which operations the watch cache cannot follow, and what being in sync means over whole
    runs and to the user.

    Two kinds of rename go wrong. A root is moved into a directory that is itself monitored:
    the program stops monitoring the root, but the moved tree is still monitored, by way of
    the other root, and now has no watches. And a directory is moved that has a root below it:
    its parent is not watched, so no event tells of the departure, and the entries of the
    root keep pathnames that no longer exist. All other operations are followed, so these are
    the exact conditions. */
module DirExact {
  import opened Options
  import opened Paths
  import opened DirWorld
  import opened DirOps
  import opened DirSync

  // ---------------------------------------------------------------- the exception

  /** Visiting directories whose watches are all cached changes nothing. */
  lemma {:induction false} TraverseAllCached(w: World, ds: seq<nat>)
    requires forall i :: i in ds && i in w.dirs ==> i in w.watch && w.watch[i] in w.cache
    ensures TraverseAll(w, ds) == w
  {
    if ds != [] {
      var js := ds[..|ds|-1];
      assert forall j :: j in js ==> j in ds;
      TraverseAllCached(w, js);
    }
  }

  lemma ArrivalCached(w: World, e: Event, q: Path, nftw: Order)
    requires OrderOk(nftw) && TreeOk(w.dirs) && WellFormed(q) && NoSlash(e.name)
    requires e.wd in w.cache && e.wd > 0 && w.cache[e.wd] == Join(q) && e.mask == {MovedTo, IsDir}
    requires forall i :: i in Below(w.dirs, q + [e.name]) ==> i in w.watch && w.watch[i] in w.cache
    ensures EventOk(e) && HandleOne(w, e, nftw) == w
  {
    JoinSnoc(q, e.name);
    SubtreeIsDescendants(w.dirs, q + [e.name]);
    TraverseAllCached(w, nftw(Subtree(w.dirs, Join(q) + "/" + e.name)));
  }

  /** The arrival of a moved root finds every watch in the cache already. */
  lemma RootArrivalIgnored(w: World, op: Op, nftw: Order)
    requires OrderOk(nftw) && Synced(w) && OpOk(w, op) && RootIntoTree(w, op)
    ensures op.target in w.watch && EventOk(ToEvent(w, op))
    ensures HandleOne(FsStep(w, op), ToEvent(w, op), nftw) == FsStep(w, op)
  {
    var src := w.dirs[op.ino];
    GraftTreeOk(w.dirs, op.ino, op.target, op.name);
    BelowAfterRename(w.dirs, src, w.dirs[op.target] + [op.name]);
    SplitJoin(src);
    assert Covered(w.roots, src);
    BelowMonitored(w.dirs, w.roots, src);
    ArrivalCached(FsStep(w, op), ToEvent(w, op), w.dirs[op.target], nftw);
  }

  lemma StillCovered(w: World, op: Op)
    requires FsOk(w) && OpOk(w, op) && RootIntoTree(w, op)
    ensures Covered(ZapRoot(w.roots, Join(w.dirs[op.ino])), w.dirs[op.target] + [op.name])
  {
    var src, q := w.dirs[op.ino], w.dirs[op.target];
    SplitJoin(src);
    ZapRootElements(w.roots, Join(src));
    var s :| Some(s) in w.roots && Split(s) <= q;
    assert s != Join(src);
    assert Split(s) <= q + [op.name];
  }

  lemma TwoHandledApart(w: World, e: Event, f: Event, gs: seq<Group>, nftw: Order)
    requires EventOk(e) && EventOk(f) && !IsRename(e, f) && GroupingOf([e, f], gs)
    ensures AllOk(gs)
    ensures HandleAll(w, gs, nftw) == HandleOne(HandleOne(w, e, nftw), f, nftw)
  {
    GroupingTwo(e, f, gs);
    HandleAllTwo(w, One(e), One(f), nftw);
  }

  lemma MovedRootUnwatched(w: World, op: Op, nftw: Order)
    requires Synced(w) && OpOk(w, op) && RootIntoTree(w, op)
    ensures var src := w.dirs[op.ino];
            !Mirrors(ZapSubtree(FsStep(w, op).(roots := ZapRoot(w.roots, Join(src))), Join(src), nftw))
  {
    var src, dst := w.dirs[op.ino], w.dirs[op.target] + [op.name];
    var roots' := ZapRoot(w.roots, Join(src));
    var w2 := ZapSubtree(FsStep(w, op).(roots := roots'), Join(src), nftw);
    MovedAwayTracks(w, roots', src, dst, nftw, Monitored(w.dirs, w.roots));
    StillCovered(w, op);
    assert op.ino in Below(w.dirs, src) && w2.dirs[op.ino] == dst;
    assert op.ino !in w2.watch && op.ino in Monitored(w2.dirs, w2.roots);
  }

  /** Moving a root into a monitored directory loses the moved subtree: it is still
      monitored, through its new parent, but its watches have been removed. */
  lemma RootIntoTreeLosesSync(w: World, op: Op, gs: seq<Group>, nftw: Order)
    requires OrderOk(nftw) && Synced(w) && OpOk(w, op) && RootIntoTree(w, op)
    requires GroupingOf(Report(w, op), gs)
    ensures AllOk(gs) && !Mirrors(HandleAll(FsStep(w, op), gs, nftw))
  {
    RootWatched(w, op.ino);
    RootReport(w, op);
    RootArrivalIgnored(w, op, nftw);
    HandleMoveSelf(FsStep(w, op), SelfEvent(w, op.ino), Join(w.dirs[op.ino]), nftw);
    TwoHandledApart(FsStep(w, op), ToEvent(w, op), SelfEvent(w, op.ino), gs, nftw);
    MovedRootUnwatched(w, op, nftw);
  }

  // ---------------------------------------------------------------- a root below what is moved

  /** A directory with a root below it is not monitored itself, so its departure is not
      reported. */
  lemma RootBelowReport(w: World, op: Op)
    requires Synced(w) && OpOk(w, op) && MovesRootBelow(w, op)
    ensures Report(w, op) == if op.target in w.watch then [ToEvent(w, op)] else []
  {
    var src := w.dirs[op.ino];
    var s :| RootBelow(w.roots, src, s);
    SplitJoin(src);
    forall t | Some(t) in w.roots ensures !(Split(t) <= src) {
      assert Split(t) <= src ==> Split(t) <= Split(s);
    }
    assert !Covered(w.roots, src);
    assert !IsRoot(w.roots, Join(src));
    ParentWatched(w, op.ino);
    RenameReport(w, op);
  }

  /** The directory of the root `s`, and where it is after the move. */
  lemma RootBelowMoves(w: World, op: Op, s: string) returns (r: nat)
    requires Synced(w) && OpOk(w, op) && op.Rename? && RootBelow(w.roots, w.dirs[op.ino], s)
    ensures r in w.watch && r in w.dirs && w.dirs[r] == Split(s)
    ensures w.watch[r] in w.cache && w.cache[w.watch[r]] == s
    ensures var dst := w.dirs[op.target] + [op.name];
            r in FsStep(w, op).dirs && dst <= FsStep(w, op).dirs[r] && WellFormed(FsStep(w, op).dirs[r])
            && FsStep(w, op).dirs[r] != Split(s)
  {
    var src, dst := w.dirs[op.ino], w.dirs[op.target] + [op.name];
    assert IsDirectory(w.dirs, Split(s));
    r :| r in w.dirs && w.dirs[r] == Split(s);
    assert Covered(w.roots, w.dirs[r]);
    GraftTreeOk(w.dirs, op.ino, op.target, op.name);
    assert FsStep(w, op).dirs[r] == dst + Split(s)[|src|..];
    if dst <= Split(s) { PrefixIsDirectory(w.dirs, r, dst); }
  }

  /** Nothing is watched at the target: the root's directory is still watched, but nothing
      that is monitored has it. */
  lemma RootBelowGone(w: World, op: Op, s: string)
    requires Synced(w) && OpOk(w, op) && op.Rename? && RootBelow(w.roots, w.dirs[op.ino], s)
    requires op.target !in w.watch
    ensures !Mirrors(FsStep(w, op))
  {
    var dst := w.dirs[op.target] + [op.name];
    var r := RootBelowMoves(w, op, s);
    assert !Covered(w.roots, w.dirs[op.target]);
    TargetCovered(w, op);
    forall t | Some(t) in w.roots ensures !(Split(t) <= FsStep(w, op).dirs[r]) {
      NoRootAtTarget(w, op, t, FsStep(w, op).dirs[r]);
    }
    assert !Covered(w.roots, FsStep(w, op).dirs[r]);
  }

  /** No root lies at or below the target, since nothing does. */
  lemma NoRootAtTarget(w: World, op: Op, t: string, p: Path)
    requires FsOk(w) && OpOk(w, op) && op.Rename? && Some(t) in w.roots
    requires w.dirs[op.target] + [op.name] <= p && !Covered(w.roots, w.dirs[op.target] + [op.name])
    ensures !(Split(t) <= p)
  {
    var dst := w.dirs[op.target] + [op.name];
    if Split(t) <= p {
      Comparable(Split(t), dst, p);
      assert IsDirectory(w.dirs, Split(t));
      var i :| i in w.dirs && w.dirs[i] == Split(t);
      if dst <= Split(t) { PrefixIsDirectory(w.dirs, i, dst); }
    }
  }

  lemma {:induction false} TraverseAllKeepsCache(w: World, ds: seq<nat>)
    ensures forall wd :: wd in w.cache ==> wd in TraverseAll(w, ds).cache && TraverseAll(w, ds).cache[wd] == w.cache[wd]
  {
    if ds != [] { TraverseAllKeepsCache(w, ds[..|ds|-1]); }
  }

  /** An arrival whose pathname is cached is not entered a second time. */
  lemma KnownArrivalIgnored(w: World, e: Event, nftw: Order, wd: int)
    requires EventOk(e) && IsArrival(e) && !Lost(w, e)
    requires wd in w.cache && w.cache[wd] == w.cache[e.wd] + "/" + e.name
    ensures HandleOne(w, e, nftw) == w
  {
    assert w.cache[wd] in w.cache.Values;
  }

  /** An arrival changes no watch and no cache entry there was. */
  lemma ArrivalKeeps(w: World, e: Event, nftw: Order)
    requires EventOk(e) && IsArrival(e) && !Lost(w, e)
    ensures var w' := HandleOne(w, e, nftw);
            && Extends(w, w') && w'.dirs == w.dirs && w'.roots == w.roots
            && forall wd :: wd in w.cache ==> wd in w'.cache && w'.cache[wd] == w.cache[wd]
  {
    var ds := nftw(Subtree(w.dirs, w.cache[e.wd] + "/" + e.name));
    TraverseAllExtends(w, ds);
    TraverseAllFrame(w, ds);
    TraverseAllKeepsCache(w, ds);
  }

  lemma MovedToArrives(w: World, e: Event)
    requires e.wd in w.cache && e.wd > 0 && e.mask == {MovedTo, IsDir}
    ensures EventOk(e) && IsArrival(e) && !Lost(w, e)
  {
  }

  lemma StaleEntry(w: World, r: nat, s: string)
    requires r in w.dirs && WellFormed(w.dirs[r]) && w.dirs[r] != Split(s) && Covered(w.roots, w.dirs[r])
    requires r in w.watch && w.watch[r] in w.cache && w.cache[w.watch[r]] == s
    ensures !Mirrors(w)
  {
    assert r in Monitored(w.dirs, w.roots);
    SplitJoin(w.dirs[r]);
  }

  /** The target is watched: the arrival leaves the cached pathname of the root's directory,
      which is still watched, as it was before the move. */
  lemma RootBelowStale(w: World, op: Op, s: string, nftw: Order)
    requires OrderOk(nftw) && Synced(w) && OpOk(w, op) && op.Rename? && RootBelow(w.roots, w.dirs[op.ino], s)
    requires op.target in w.watch
    ensures EventOk(ToEvent(w, op)) && !Mirrors(HandleOne(FsStep(w, op), ToEvent(w, op), nftw))
  {
    var w1, to, dst := FsStep(w, op), ToEvent(w, op), w.dirs[op.target] + [op.name];
    var r := RootBelowMoves(w, op, s);
    MovedToArrives(w1, to);
    ArrivalKeeps(w1, to, nftw);
    CoveredBelow(w.roots, w.dirs[op.target], dst);
    CoveredBelow(w.roots, dst, w1.dirs[r]);
    StaleEntry(HandleOne(w1, to, nftw), r, s);
  }

  /** Moving a directory with a root below it loses the root: its pathname in the cache and
      in the list of roots is that of before the move. */
  lemma RootBelowLosesSync(w: World, op: Op, gs: seq<Group>, nftw: Order)
    requires OrderOk(nftw) && Synced(w) && OpOk(w, op) && MovesRootBelow(w, op)
    requires GroupingOf(Report(w, op), gs)
    ensures AllOk(gs) && !Mirrors(HandleAll(FsStep(w, op), gs, nftw))
  {
    var s :| RootBelow(w.roots, w.dirs[op.ino], s);
    RootBelowReport(w, op);
    if op.target in w.watch {
      RootBelowStale(w, op, s, nftw);
      OneHandled(FsStep(w, op), ToEvent(w, op), gs, nftw);
    } else {
      RootBelowGone(w, op, s);
    }
  }

  // ---------------------------------------------------------------- exactly when

  /** After any operation and the handling of its events the watches and the cache are those
      of the monitored directories, except exactly when the operation moved a root into a
      monitored directory or moved a directory with a root below it. */
  lemma OpMirrorsExactly(w: World, op: Op, gs: seq<Group>, nftw: Order)
    requires OrderOk(nftw) && Synced(w) && OpOk(w, op) && GroupingOf(Report(w, op), gs)
    ensures AllOk(gs)
    ensures Mirrors(HandleAll(FsStep(w, op), gs, nftw)) <==> !RootIntoTree(w, op) && !MovesRootBelow(w, op)
  {
    if RootIntoTree(w, op) { RootIntoTreeLosesSync(w, op, gs, nftw); }
    else if MovesRootBelow(w, op) { RootBelowLosesSync(w, op, gs, nftw); }
    else { OpKeepsSynced(w, op, gs, nftw); }
  }

  /** In sync, with all roots still there, except when one has also gone among lost events. */
  lemma OpSyncedExactly(w: World, op: Op, gs: seq<Group>, nftw: Order)
    requires OrderOk(nftw) && Synced(w) && OpOk(w, op) && GroupingOf(Report(w, op), gs)
    ensures AllOk(gs)
    ensures Synced(HandleAll(FsStep(w, op), gs, nftw)) <==>
              !RootIntoTree(w, op) && !MovesRootBelow(w, op) && !RootVanishes(w, op)
  {
    OpMirrorsExactly(w, op, gs, nftw);
    if Followed(w, op) { OpKeepsSynced(w, op, gs, nftw); }
    if RootVanishes(w, op) { BurstSynced(w, op, gs, nftw); }
  }

  // ---------------------------------------------------------------- whole runs

  /** One operation, followed by the handling of its events. */
  ghost predicate Turn(w: World, op: Op, w': World, nftw: Order) {
    && OpOk(w, op) && Followed(w, op) && !RootVanishes(w, op)
    && exists gs :: GroupingOf(Report(w, op), gs) && AllOk(gs) && w' == HandleAll(FsStep(w, op), gs, nftw)
  }

  lemma TurnSynced(w: World, op: Op, w': World, nftw: Order)
    requires OrderOk(nftw) && Synced(w) && Turn(w, op, w', nftw)
    ensures Synced(w')
  {
    var gs :| GroupingOf(Report(w, op), gs) && AllOk(gs) && w' == HandleAll(FsStep(w, op), gs, nftw);
    OpKeepsSynced(w, op, gs, nftw);
  }

  /** From the initial build on, over every run, the cache mirrors the monitored trees. */
  lemma {:induction false} RunStaysSynced(w: World, ws: seq<World>, ops: seq<Op>, nftw: Order, n: nat)
    requires OrderOk(nftw) && FsOk(w)
    requires |ws| == |ops| + 1 && n <= |ops|
    requires ws[0] == Reinit(w, nftw)
    requires forall k :: 0 <= k < |ops| ==> Turn(ws[k], ops[k], ws[k+1], nftw)
    ensures Synced(ws[n])
  {
    if n == 0 {
      ReinitSyncs(w, nftw);
    } else {
      RunStaysSynced(w, ws, ops, nftw, n - 1);
      assert Turn(ws[n-1], ops[n-1], ws[n], nftw);
      TurnSynced(ws[n-1], ops[n-1], ws[n], nftw);
    }
  }

  ghost predicate Hit(m: set<nat>, f: map<nat, int>, x: int) {
    exists i :: i in m && i in f && f[i] == x
  }

  /** What being in sync means to the user: one cache entry per monitored directory. */
  lemma SyncedIsBijection(w: World)
    requires Synced(w)
    ensures |w.cache| == |Monitored(w.dirs, w.roots)|
    ensures forall i :: i in Monitored(w.dirs, w.roots) ==>
              && i in w.dirs && i in w.watch && w.watch[i] in w.cache
              && w.cache[w.watch[i]] == Join(w.dirs[i])
    ensures forall wd :: wd in w.cache ==>
              Hit(Monitored(w.dirs, w.roots), w.watch, wd)
    ensures forall a, b :: a in w.cache && b in w.cache && w.cache[a] == w.cache[b] ==> a == b
  {
    var m := Monitored(w.dirs, w.roots);
    forall a, b | a in w.cache && b in w.cache && w.cache[a] == w.cache[b] ensures a == b {
      assert Held(w.watch, a) && Held(w.watch, b);
      var i :| i in w.watch && w.watch[i] == a;
      var j :| j in w.watch && w.watch[j] == b;
      JoinInjective(w.dirs[i], w.dirs[j]);
    }
    forall wd | wd in w.cache.Keys ensures Hit(m, w.watch, wd) {
      assert Held(w.watch, wd);
    }
    SameSize(m, w.watch, w.cache.Keys);
  }

  lemma {:induction false} SameSize(m: set<nat>, f: map<nat, int>, image: set<int>)
    requires m <= f.Keys
    requires forall i, j :: i in m && j in m && f[i] == f[j] ==> i == j
    requires forall i :: i in m ==> f[i] in image
    requires forall x :: x in image ==> Hit(m, f, x)
    ensures |m| == |image|
  {
    if m == {} {
      forall x ensures x !in image {
        assert !Hit(m, f, x);
      }
    } else {
      var i :| i in m;
      var y := f[i];
      var m', image' := m - {i}, image - {y};
      forall x | x in image' ensures Hit(m', f, x) {
        var j :| j in m && f[j] == x;
        assert j in m';
      }
      SameSize(m', f, image');
    }
  }
}
