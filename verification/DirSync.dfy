/** Handling the events of each operation keeps the cache in step with the tree.

    Each operation is treated in three parts: which events the kernel reports for it, what
    the handlers make of them however they are grouped, and why the result is in sync. The
    third part rests on `Tracks(w, m)`, which says that the watches and the cache are those
    of the directories in `m`: handling an event changes `m`, and it remains to show that
    the new `m` is the set of monitored directories of the changed tree.

    For a rename that is four cases, by whether the parent of the source and the target are
    watched; a rename of a root, which is reported by a different event, comes last. Files
    whose events look like those of directories but for one flag change nothing. */
module DirSync {
  import opened Options
  import opened Sequences
  import opened Paths
  import opened DirWorld
  import opened DirOps

  /** The event loop may see a rename as one pair or, when the second event arrives too
      late, as a departure followed by an arrival. */
  ghost predicate GroupingOf(es: seq<Event>, gs: seq<Group>) {
    gs == GroupUp(es) || gs == Singly(es)
  }

  lemma HandleAllOne(w: World, g: Group, nftw: Order)
    requires g.Ok()
    ensures AllOk([g]) && HandleAll(w, [g], nftw) == Handle(w, g, nftw)
  {
    assert [g][..0] == [];
  }

  lemma HandleAllTwo(w: World, g: Group, h: Group, nftw: Order)
    requires g.Ok() && h.Ok()
    ensures AllOk([g, h]) && HandleAll(w, [g, h], nftw) == Handle(Handle(w, g, nftw), h, nftw)
  {
    HandleAllOne(w, g, nftw);
    assert [g, h][..1] == [g];
  }

  lemma GroupingOne(e: Event, gs: seq<Group>)
    requires GroupingOf([e], gs)
    ensures gs == [One(e)]
  {
    assert [e][1..] == [];
    assert GroupUp([e]) == [One(e)] + GroupUp([]) && Singly([e]) == [One(e)] + Singly([]);
  }

  lemma GroupingTwo(e: Event, f: Event, gs: seq<Group>)
    requires GroupingOf([e, f], gs)
    ensures gs == [One(e), One(f)] || (IsRename(e, f) && gs == [Pair(e, f)])
    ensures IsRename(e, f) || gs == [One(e), One(f)]
  {
    var es := [e, f];
    assert es[1..] == [f] && es[2..] == [];
    GroupingOne(f, GroupUp([f]));
    GroupingOne(f, Singly([f]));
    assert Singly(es) == [One(e)] + Singly([f]);
    if IsRename(e, f) {
      assert GroupUp(es) == [Pair(e, f)] + GroupUp([]);
    } else {
      assert GroupUp(es) == [One(e)] + GroupUp([f]);
    }
  }

  lemma OneHandled(w: World, e: Event, gs: seq<Group>, nftw: Order)
    requires EventOk(e) && GroupingOf([e], gs)
    ensures AllOk(gs) && HandleAll(w, gs, nftw) == HandleOne(w, e, nftw)
  {
    GroupingOne(e, gs);
    HandleAllOne(w, One(e), nftw);
  }

  lemma TwoHandled(w: World, e: Event, f: Event, gs: seq<Group>, nftw: Order)
    requires EventOk(e) && EventOk(f) && IsRename(e, f) && GroupingOf([e, f], gs)
    ensures AllOk(gs)
    ensures || HandleAll(w, gs, nftw) == HandlePair(w, e, f, nftw)
            || HandleAll(w, gs, nftw) == HandleOne(HandleOne(w, e, nftw), f, nftw)
  {
    GroupingTwo(e, f, gs);
    HandleAllOne(w, Pair(e, f), nftw);
    HandleAllTwo(w, One(e), One(f), nftw);
  }

  // ---------------------------------------------------------------- mkdir

  lemma MkdirFsOk(w: World, op: Op)
    requires FsOk(w) && OpOk(w, op) && op.Mkdir?
    ensures FsOk(FsStep(w, op))
  {
    var dirs' := FsStep(w, op).dirs;
    var p := w.dirs[op.parent] + [op.name];
    forall i | i in dirs' ensures HasParent(dirs', i) {
      if i == op.ino {
        assert dirs'[op.parent] == p[..|p|-1];
      } else {
        assert HasParent(w.dirs, i);
        if |w.dirs[i]| > 1 {
          var j :| j in w.dirs && w.dirs[j] == w.dirs[i][..|w.dirs[i]|-1];
          assert dirs'[j] == w.dirs[j];
        }
      }
    }
    forall s | Some(s) in w.roots ensures IsDirectory(dirs', Split(s)) {
      var i :| i in w.dirs && w.dirs[i] == Split(s);
      assert dirs'[i] == Split(s);
    }
  }

  /** Only the pathnames of the tracked directories matter. */
  lemma TracksFrame(w: World, w1: World, m: set<nat>)
    requires Tracks(w, m)
    requires w1.watch == w.watch && w1.cache == w.cache && w1.nextWd == w.nextWd
    requires forall i :: i in m ==> i in w1.dirs && w1.dirs[i] == w.dirs[i]
    ensures Tracks(w1, m)
  {
  }

  lemma MkdirMonitored(dirs: map<nat, Path>, roots: seq<Option<string>>, ino: nat, dst: Path)
    requires RootsOk(dirs, roots) && ino !in dirs && !IsDirectory(dirs, dst) && |dst| > 1
    ensures Monitored(dirs[ino := dst], roots)
         == Monitored(dirs, roots)
            + (if Covered(roots, dst[..|dst|-1]) then Below(dirs[ino := dst], dst) else {})
  {
    var q, dirs' := dst[..|dst|-1], dirs[ino := dst];
    if Covered(roots, q) {
      CoveredBelow(roots, q, dst);
      forall i | i in Below(dirs', dst) ensures Covered(roots, dirs'[i]) {
        CoveredBelow(roots, dst, dirs'[i]);
      }
    } else {
      NewIsCoveredFromAbove(dirs, roots, dst);
    }
  }

  /** No root is where there is no directory yet. */
  lemma NewIsCoveredFromAbove(dirs: map<nat, Path>, roots: seq<Option<string>>, dst: Path)
    requires RootsOk(dirs, roots) && !IsDirectory(dirs, dst) && |dst| > 1
    ensures Covered(roots, dst) ==> Covered(roots, dst[..|dst|-1])
  {
    if Covered(roots, dst) {
      var s :| Some(s) in roots && Split(s) <= dst;
      assert Split(s) != dst;
      assert Split(s) <= dst[..|dst|-1];
    }
  }

  lemma MkdirTracks(w: World, op: Op, nftw: Order, m: set<nat>)
    requires OrderOk(nftw) && Tracks(w, m)
    requires op.Mkdir? && OpOk(w, op) && op.parent in m && TreeOk(FsStep(w, op).dirs)
    ensures var e := DirEvent(w.watch[op.parent], Create, 0, op.name);
            var w2 := HandleOne(FsStep(w, op), e, nftw);
            && EventOk(e) && w2.dirs == FsStep(w, op).dirs && w2.roots == w.roots
            && Tracks(w2, m + Below(w2.dirs, w.dirs[op.parent] + [op.name]))
  {
    var w1 := FsStep(w, op);
    TracksFrame(w, w1, m);
    ArrivalTracks(w1, op.parent, DirEvent(w.watch[op.parent], Create, 0, op.name), nftw, m);
  }

  lemma MkdirUnwatched(w: World, op: Op)
    requires Synced(w) && OpOk(w, op) && op.Mkdir? && op.parent !in Monitored(w.dirs, w.roots)
    ensures Report(w, op) == [] && Synced(FsStep(w, op))
  {
    MkdirFsOk(w, op);
    Parts(w.dirs[op.parent], [op.name]);
    MkdirMonitored(w.dirs, w.roots, op.ino, w.dirs[op.parent] + [op.name]);
    TracksFrame(w, FsStep(w, op), Monitored(w.dirs, w.roots));
  }

  lemma MkdirWatched(w: World, op: Op, nftw: Order)
    requires OrderOk(nftw) && Synced(w) && OpOk(w, op) && op.Mkdir? && op.parent in Monitored(w.dirs, w.roots)
    ensures var e := DirEvent(w.watch[op.parent], Create, 0, op.name);
            EventOk(e) && Report(w, op) == [e] && Synced(HandleOne(FsStep(w, op), e, nftw))
  {
    MkdirFsOk(w, op);
    Parts(w.dirs[op.parent], [op.name]);
    MkdirMonitored(w.dirs, w.roots, op.ino, w.dirs[op.parent] + [op.name]);
    MkdirTracks(w, op, nftw, Monitored(w.dirs, w.roots));
  }

  lemma MkdirSynced(w: World, op: Op, gs: seq<Group>, nftw: Order)
    requires OrderOk(nftw) && Synced(w) && OpOk(w, op) && op.Mkdir?
    requires GroupingOf(Report(w, op), gs)
    ensures AllOk(gs) && Synced(HandleAll(FsStep(w, op), gs, nftw))
  {
    if op.parent in Monitored(w.dirs, w.roots) {
      MkdirWatched(w, op, nftw);
      OneHandled(FsStep(w, op), DirEvent(w.watch[op.parent], Create, 0, op.name), gs, nftw);
    } else {
      MkdirUnwatched(w, op);
    }
  }

  // ---------------------------------------------------------------- rmdir

  lemma RmdirFsOk(w: World, op: Op, roots: seq<Option<string>>)
    requires FsOk(w) && OpOk(w, op) && op.Rmdir?
    requires roots == ZapRoot(w.roots, Join(w.dirs[op.ino]))
    ensures TreeOk(w.dirs - {op.ino}) && RootsOk(w.dirs - {op.ino}, roots)
  {
    var dirs' := w.dirs - {op.ino};
    forall i | i in dirs' ensures HasParent(dirs', i) {
      assert HasParent(w.dirs, i);
      if |w.dirs[i]| > 1 {
        var j :| j in w.dirs && w.dirs[j] == w.dirs[i][..|w.dirs[i]|-1];
        assert w.dirs[j] <= w.dirs[i];
        assert dirs'[j] == w.dirs[j];
      }
    }
    ZapRootElements(w.roots, Join(w.dirs[op.ino]));
    ZapRootAt(w.roots, Join(w.dirs[op.ino]));
    forall s | Some(s) in roots ensures IsDirectory(dirs', Split(s)) {
      var i :| i in w.dirs && w.dirs[i] == Split(s);
      assert i != op.ino;
      assert dirs'[i] == Split(s);
    }
  }

  lemma RmdirTracks(w: World, w2: World, ino: nat, m: set<nat>)
    requires Tracks(w, m) && ino in m
    requires w2.dirs == w.dirs - {ino} && w2.watch == w.watch - {ino} && w2.nextWd == w.nextWd
    requires w2.cache == w.cache - {w.watch[ino]}
    ensures Tracks(w2, m - {ino})
  {
    forall wd | wd in w2.cache ensures Held(w2.watch, wd) {
      assert Held(w.watch, wd);
      var i :| i in w.watch && w.watch[i] == wd;
      assert w2.watch[i] == wd;
    }
  }

  lemma RmdirHandled(w1: World, wd: int, gs: seq<Group>, nftw: Order)
    requires wd in w1.cache && wd != -1
    requires GroupingOf([Event(wd, {DeleteSelf}, 0, "", 0), Event(wd, {Ignored}, 0, "", 0)], gs)
    ensures AllOk(gs)
    ensures HandleAll(w1, gs, nftw)
         == w1.(roots := ZapRoot(w1.roots, w1.cache[wd]), cache := w1.cache - {wd})
  {
    var e, f := Event(wd, {DeleteSelf}, 0, "", 0), Event(wd, {Ignored}, 0, "", 0);
    GroupingTwo(e, f, gs);
    HandleAllTwo(w1, One(e), One(f), nftw);
  }

  lemma NotARoot(roots: seq<Option<string>>, p: Path)
    requires WellFormed(p) && !Covered(roots, p)
    ensures ZapRoot(roots, Join(p)) == roots
  {
    SplitJoin(p);
    assert Some(Join(p)) in roots ==> Split(Join(p)) <= p;
  }

  lemma RmdirUnmonitored(w: World, op: Op)
    requires Synced(w) && OpOk(w, op) && op.Rmdir? && op.ino !in Monitored(w.dirs, w.roots)
    ensures Synced(FsStep(w, op))
  {
    NotARoot(w.roots, w.dirs[op.ino]);
    RmdirFsOk(w, op, w.roots);
    RmdirMonitored(w, op);
    RmdirUntracked(w, FsStep(w, op), op.ino, Monitored(w.dirs, w.roots));
  }

  lemma RmdirUntracked(w: World, w1: World, ino: nat, m: set<nat>)
    requires Tracks(w, m) && ino !in m
    requires w1 == w.(dirs := w.dirs - {ino}, watch := w.watch - {ino})
    ensures m - {ino} == m && Tracks(w1, m)
  {
    assert w.watch - {ino} == w.watch;
  }

  lemma RmdirMonitoredSynced(w: World, op: Op)
    requires Synced(w) && OpOk(w, op) && op.Rmdir? && op.ino in Monitored(w.dirs, w.roots)
    ensures Synced(FsStep(w, op).(roots := ZapRoot(w.roots, Join(w.dirs[op.ino])),
                                  cache := w.cache - {w.watch[op.ino]}))
  {
    var roots' := ZapRoot(w.roots, Join(w.dirs[op.ino]));
    RmdirFsOk(w, op, roots');
    RmdirMonitored(w, op);
    var w2 := FsStep(w, op).(roots := roots', cache := w.cache - {w.watch[op.ino]});
    RmdirTracks(w, w2, op.ino, Monitored(w.dirs, w.roots));
  }

  lemma RmdirSynced(w: World, op: Op, gs: seq<Group>, nftw: Order)
    requires Synced(w) && OpOk(w, op) && op.Rmdir?
    requires GroupingOf(Report(w, op), gs)
    ensures AllOk(gs) && Synced(HandleAll(FsStep(w, op), gs, nftw))
  {
    if op.ino in Monitored(w.dirs, w.roots) {
      RmdirHandled(FsStep(w, op), w.watch[op.ino], gs, nftw);
      RmdirMonitoredSynced(w, op);
    } else {
      RmdirUnmonitored(w, op);
    }
  }

  lemma RmdirMonitored(w: World, op: Op)
    requires FsOk(w) && OpOk(w, op) && op.Rmdir?
    ensures Monitored(w.dirs - {op.ino}, ZapRoot(w.roots, Join(w.dirs[op.ino])))
         == Monitored(w.dirs, w.roots) - {op.ino}
  {
    var s := Join(w.dirs[op.ino]);
    SplitJoin(w.dirs[op.ino]);
    ZapRootElements(w.roots, s);
    forall i | i in w.dirs && i != op.ino
      ensures Covered(ZapRoot(w.roots, s), w.dirs[i]) <==> Covered(w.roots, w.dirs[i])
    {
      if Covered(w.roots, w.dirs[i]) {
        var t :| Some(t) in w.roots && Split(t) <= w.dirs[i];
        assert t != s;
        assert Some(t) in ZapRoot(w.roots, s);
      }
      if Covered(ZapRoot(w.roots, s), w.dirs[i]) {
        var t :| Some(t) in ZapRoot(w.roots, s) && Split(t) <= w.dirs[i];
        assert Some(t) in w.roots;
      }
    }
  }

  // ---------------------------------------------------------------- rename

  /** A directory's old parent is watched exactly when the directory is monitored and is
      not itself a root. */
  lemma ParentWatched(w: World, ino: nat)
    requires Synced(w) && ino in w.dirs
    ensures HasWatchedParent(w, w.dirs[ino])
       <==> Covered(w.roots, w.dirs[ino]) && !IsRoot(w.roots, Join(w.dirs[ino]))
    ensures HasWatchedParent(w, w.dirs[ino]) ==>
              exists i :: i in Monitored(w.dirs, w.roots) && w.dirs[i] == w.dirs[ino][..|w.dirs[ino]|-1]
                          && w.watch[i] == ParentWd(w, w.dirs[ino])
  {
    var p := w.dirs[ino];
    if HasWatchedParent(w, p) {
      var i :| i in w.watch && i in w.dirs && w.dirs[i] == p[..|p|-1] && w.watch[i] == ParentWd(w, p);
      ChildOfCovered(w.dirs, w.roots, p);
    }
    if Covered(w.roots, p) && !IsRoot(w.roots, Join(p)) {
      CoveredParent(w.dirs, w.roots, ino);
      var i :| i in w.dirs && w.dirs[i] == p[..|p|-1];
      assert i in Monitored(w.dirs, w.roots);
    }
  }

  lemma ChildOfCovered(dirs: map<nat, Path>, roots: seq<Option<string>>, p: Path)
    requires RootsOk(dirs, roots) && WellFormed(p) && |p| > 1 && Covered(roots, p[..|p|-1])
    ensures Covered(roots, p) && !IsRoot(roots, Join(p))
  {
    var s :| Some(s) in roots && Split(s) <= p[..|p|-1];
    CoveredBelow(roots, p[..|p|-1], p);
    SplitJoin(p);
    assert Split(s) <= Split(Join(p)) && Split(s) != Split(Join(p));
  }

  lemma CoveredParent(dirs: map<nat, Path>, roots: seq<Option<string>>, i: nat)
    requires TreeOk(dirs) && i in dirs && Covered(roots, dirs[i]) && !IsRoot(roots, Join(dirs[i]))
    ensures var p := dirs[i]; |p| > 1 && Covered(roots, p[..|p|-1]) && IsDirectory(dirs, p[..|p|-1])
  {
    var p := dirs[i];
    assert HasParent(dirs, i);
    var s :| Some(s) in roots && Split(s) <= p;
    assert IsRoot(roots, s) && Join(Split(s)) == s;
    assert Split(s) != p;
    assert Split(s) <= p[..|p|-1];
  }

  lemma NoRootBelow(w: World, op: Op)
    requires FsOk(w) && OpOk(w, op) && op.Rename? && !MovesRootBelow(w, op) && !IsRoot(w.roots, Join(w.dirs[op.ino]))
    ensures forall s :: Some(s) in w.roots ==> !(w.dirs[op.ino] <= Split(s))
  {
    forall s | Some(s) in w.roots ensures !(w.dirs[op.ino] <= Split(s)) {
      assert Join(Split(s)) == s && !RootBelow(w.roots, w.dirs[op.ino], s);
    }
  }

  /** The target of a rename is monitored exactly when the directory it moves into is. */
  lemma TargetCovered(w: World, op: Op)
    requires FsOk(w) && OpOk(w, op) && op.Rename?
    ensures Covered(w.roots, w.dirs[op.target] + [op.name])
       <==> Covered(w.roots, w.dirs[op.target])
  {
    var q := w.dirs[op.target];
    var p := q + [op.name];
    if Covered(w.roots, q) { CoveredBelow(w.roots, q, p); }
    if Covered(w.roots, p) {
      var s :| Some(s) in w.roots && Split(s) <= p;
      assert Split(s) != p;
      assert Split(s) <= q;
    }
  }

  lemma RenameFsOk(w: World, op: Op, roots: seq<Option<string>>)
    requires FsOk(w) && OpOk(w, op) && op.Rename? && !MovesRootBelow(w, op) && RootsOk(w.dirs, roots)
    requires forall s :: Some(s) in roots ==> !(w.dirs[op.ino] <= Split(s))
    ensures TreeOk(FsStep(w, op).dirs) && RootsOk(FsStep(w, op).dirs, roots)
  {
    GraftTreeOk(w.dirs, op.ino, op.target, op.name);
    GraftRootsOk(w.dirs, roots, w.dirs[op.ino], w.dirs[op.target] + [op.name]);
  }

  lemma RewriteTracks(w: World, w2: World, src: Path, dst: Path, m: set<nat>)
    requires Tracks(w, m) && TreeOk(w.dirs) && WellFormed(src) && WellFormed(dst)
    requires w2 == w.(dirs := GraftAll(w.dirs, src, dst), cache := RewriteAll(w.cache, Join(src), Join(dst)))
    ensures Tracks(w2, m)
  {
    forall i | i in m ensures w2.cache[w.watch[i]] == Join(w2.dirs[i]) {
      RewriteIsGraft(src, dst, w.dirs[i]);
    }
    forall wd | wd in w2.cache ensures Held(w2.watch, wd) {
      assert Held(w.watch, wd);
    }
  }

  /** The departure event of a rename names exactly the directory that moved. */
  ghost predicate Names(w: World, op: Op, from: Event)
    requires op.Rename? && op.ino in w.dirs
  {
    && w.dirs[op.ino] != []
    && var src := w.dirs[op.ino];
    && from == DirEvent(from.wd, MovedFrom, op.cookie, src[|src|-1])
    && from.wd in w.cache && from.wd > 0
    && w.cache[from.wd] + "/" + from.name == Join(src)
  }

  lemma WatchedParent(w: World, ino: nat) returns (i: nat)
    requires Synced(w) && ino in w.dirs && HasWatchedParent(w, w.dirs[ino])
    ensures i in Monitored(w.dirs, w.roots) && w.dirs[i] == w.dirs[ino][..|w.dirs[ino]|-1]
    ensures w.watch[i] == ParentWd(w, w.dirs[ino])
  {
    ParentWatched(w, ino);
    i :| i in Monitored(w.dirs, w.roots) && w.dirs[i] == w.dirs[ino][..|w.dirs[ino]|-1]
         && w.watch[i] == ParentWd(w, w.dirs[ino]);
  }

  lemma NamesByParent(w: World, op: Op, i: nat)
    requires Synced(w) && op.Rename? && op.ino in w.dirs && |w.dirs[op.ino]| > 1
    requires i in Monitored(w.dirs, w.roots) && w.dirs[i] == w.dirs[op.ino][..|w.dirs[op.ino]|-1]
    ensures var src := w.dirs[op.ino]; Names(w, op, DirEvent(w.watch[i], MovedFrom, op.cookie, src[|src|-1]))
  {
    var src := w.dirs[op.ino];
    CachedChild(w, Monitored(w.dirs, w.roots), i, src[|src|-1]);
  }

  lemma DepartureNames(w: World, op: Op)
    requires Synced(w) && op.Rename? && op.ino in w.dirs && HasWatchedParent(w, w.dirs[op.ino])
    ensures var src := w.dirs[op.ino];
            Names(w, op, DirEvent(ParentWd(w, src), MovedFrom, op.cookie, src[|src|-1]))
  {
    var i := WatchedParent(w, op.ino);
    NamesByParent(w, op, i);
  }

  lemma CachedChild(w: World, m: set<nat>, i: nat, name: string)
    requires Tracks(w, m) && TreeOk(w.dirs) && i in m && NoSlash(name)
    ensures w.watch[i] in w.cache && w.watch[i] > 0
    ensures w.cache[w.watch[i]] + "/" + name == Join(w.dirs[i] + [name])
  {
    JoinSnoc(w.dirs[i], name);
  }

  lemma RenameMonitored(w: World, op: Op)
    requires FsOk(w) && OpOk(w, op) && op.Rename? && !MovesRootBelow(w, op) && !IsRoot(w.roots, Join(w.dirs[op.ino]))
    ensures FsOk(FsStep(w, op))
    ensures Monitored(FsStep(w, op).dirs, w.roots)
         == (Monitored(w.dirs, w.roots) - Below(w.dirs, w.dirs[op.ino]))
            + (if Covered(w.roots, w.dirs[op.target]) then Below(w.dirs, w.dirs[op.ino]) else {})
  {
    NoRootBelow(w, op);
    RenameFsOk(w, op, w.roots);
    TargetCovered(w, op);
    MonitoredAfterRename(w.dirs, w.roots, w.dirs[op.ino], w.dirs[op.target] + [op.name]);
  }

  lemma HandleDeparture(w: World, from: Event, s: string, nftw: Order)
    requires from.wd in w.cache && from.wd > 0 && from.mask == {MovedFrom, IsDir}
    requires w.cache[from.wd] + "/" + from.name == s
    ensures EventOk(from) && HandleOne(w, from, nftw) == ZapSubtree(w, s, nftw)
  {
  }

  lemma HandleRename(w: World, from: Event, to: Event, full: string, newPrefix: string, nftw: Order)
    requires from.wd in w.cache && from.wd > 0 && from.mask == {MovedFrom, IsDir}
    requires to.wd in w.cache && to.wd > 0 && to.mask == {MovedTo, IsDir} && to.cookie == from.cookie
    requires w.cache[from.wd] + "/" + from.name == full
    requires w.cache[to.wd] + "/" + to.name == newPrefix
    ensures EventOk(from) && EventOk(to) && IsRename(from, to)
    ensures HandlePair(w, from, to, nftw) == w.(cache := RewriteAll(w.cache, full, newPrefix))
  {
  }

  lemma PairMonitored(w: World, op: Op)
    requires FsOk(w) && OpOk(w, op) && op.Rename? && !MovesRootBelow(w, op) && !IsRoot(w.roots, Join(w.dirs[op.ino]))
    requires Covered(w.roots, w.dirs[op.target]) && Covered(w.roots, w.dirs[op.ino])
    ensures FsOk(FsStep(w, op))
    ensures Monitored(FsStep(w, op).dirs, w.roots) == Monitored(w.dirs, w.roots)
  {
    RenameMonitored(w, op);
    BelowMonitored(w.dirs, w.roots, w.dirs[op.ino]);
    var m, b := Monitored(w.dirs, w.roots), Below(w.dirs, w.dirs[op.ino]);
    assert (m - b) + b == m;
  }

  lemma PairTracks(w: World, op: Op, from: Event, nftw: Order, m: set<nat>)
    requires op.Rename? && MoveOk(w.dirs, op.ino, op.target, op.name) && Tracks(w, m)
    requires Names(w, op, from) && op.target in m
    ensures var to := DirEvent(w.watch[op.target], MovedTo, op.cookie, op.name);
            && EventOk(from) && EventOk(to) && IsRename(from, to)
            && var w1 := w.(dirs := GraftAll(w.dirs, w.dirs[op.ino], w.dirs[op.target] + [op.name]));
            var w2 := HandlePair(w1, from, to, nftw);
            && Tracks(w2, m) && w2 == w1.(cache := w2.cache)
  {
    var src, dst := w.dirs[op.ino], w.dirs[op.target] + [op.name];
    var to := DirEvent(w.watch[op.target], MovedTo, op.cookie, op.name);
    var w1 := w.(dirs := GraftAll(w.dirs, src, dst));
    JoinSnoc(w.dirs[op.target], op.name);
    HandleRename(w1, from, to, Join(src), Join(dst), nftw);
    RewriteTracks(w, w1.(cache := RewriteAll(w.cache, Join(src), Join(dst))), src, dst, m);
  }

  /** Both events together: only pathnames change, no watch is added or removed. */
  lemma PairSynced(w: World, op: Op, from: Event, nftw: Order)
    requires Synced(w) && OpOk(w, op) && op.Rename? && !MovesRootBelow(w, op) && !IsRoot(w.roots, Join(w.dirs[op.ino]))
    requires Names(w, op, from) && op.target in w.watch && Covered(w.roots, w.dirs[op.ino])
    ensures var to := DirEvent(w.watch[op.target], MovedTo, op.cookie, op.name);
            && EventOk(from) && EventOk(to) && IsRename(from, to)
            && var w2 := HandlePair(FsStep(w, op), from, to, nftw);
            Synced(w2) && w2.watch == w.watch && w2.nextWd == w.nextWd && w2.roots == w.roots
  {
    PairMonitored(w, op);
    PairTracks(w, op, from, nftw, Monitored(w.dirs, w.roots));
  }

  lemma BelowMonitored(dirs: map<nat, Path>, roots: seq<Option<string>>, p: Path)
    requires Covered(roots, p)
    ensures Below(dirs, p) <= Monitored(dirs, roots)
  {
    forall i | i in Below(dirs, p) ensures Covered(roots, dirs[i]) {
      CoveredBelow(roots, p, dirs[i]);
    }
  }

  /** A departure on its own: the moved subtree is forgotten. */
  lemma DepartureTracks(w: World, w1: World, src: Path, dst: Path, from: Event, nftw: Order, m: set<nat>)
    requires TreeOk(w.dirs) && Tracks(w, m) && WellFormed(src)
    requires w1 == w.(dirs := GraftAll(w.dirs, src, dst), roots := w1.roots)
    requires from.wd in w.cache && from.wd > 0 && from.mask == {MovedFrom, IsDir}
    requires w.cache[from.wd] + "/" + from.name == Join(src)
    ensures EventOk(from)
    ensures var w2 := HandleOne(w1, from, nftw);
            && Tracks(w2, m - Below(w.dirs, src)) && w2.dirs == w1.dirs && w2.roots == w1.roots
            && forall i :: i in m - Below(w.dirs, src) ==> w2.watch[i] == w.watch[i]
  {
    SplitJoin(src);
    HandleDeparture(w1, from, Join(src), nftw);
    ZapTracks(w, w1, Join(src), nftw, m);
  }

  lemma Unmoved(dirs: map<nat, Path>, src: Path, dst: Path, m: set<nat>)
    requires m <= dirs.Keys && m !! Below(dirs, src) && !IsDirectory(dirs, dst)
    ensures forall i :: i in m ==> GraftAll(dirs, src, dst)[i] == dirs[i] && dirs[i] != dst
  {
    forall i | i in m ensures GraftAll(dirs, src, dst)[i] == dirs[i] && dirs[i] != dst {
      assert i !in Below(dirs, src);
    }
  }

  /** The arrival, once nothing of the moved subtree is tracked any more. */
  lemma MovedToTracks(dirs: map<nat, Path>, op: Op, w2: World, nftw: Order, m: set<nat>)
    requires OrderOk(nftw) && op.Rename? && MoveOk(dirs, op.ino, op.target, op.name)
    requires w2.dirs == GraftAll(dirs, dirs[op.ino], dirs[op.target] + [op.name])
    requires Tracks(w2, m) && op.target in m && m !! Below(dirs, dirs[op.ino])
    ensures w2.watch[op.target] > 0
    ensures var to := DirEvent(w2.watch[op.target], MovedTo, op.cookie, op.name);
            EventOk(to)
            && Tracks(HandleOne(w2, to, nftw), m + Below(dirs, dirs[op.ino]))
            && HandleOne(w2, to, nftw).dirs == w2.dirs && HandleOne(w2, to, nftw).roots == w2.roots
  {
    var src, dst := dirs[op.ino], dirs[op.target] + [op.name];
    GraftTreeOk(dirs, op.ino, op.target, op.name);
    BelowAfterRename(dirs, src, dst);
    Unmoved(dirs, src, dst, m);
    ArrivalTracks(w2, op.target, DirEvent(w2.watch[op.target], MovedTo, op.cookie, op.name), nftw, m);
  }

  ghost function FromEvent(w: World, op: Op): Event
    requires op.Rename? && op.ino in w.dirs && HasWatchedParent(w, w.dirs[op.ino])
  {
    DirEvent(ParentWd(w, w.dirs[op.ino]), MovedFrom, op.cookie, w.dirs[op.ino][|w.dirs[op.ino]|-1])
  }

  ghost function ToEvent(w: World, op: Op): Event
    requires op.Rename? && op.target in w.watch
  {
    DirEvent(w.watch[op.target], MovedTo, op.cookie, op.name)
  }

  /** Two events late: a departure, then an arrival that finds nothing of the subtree. */
  lemma SplitRenameSynced(w: World, op: Op, from: Event, nftw: Order)
    requires OrderOk(nftw) && Synced(w) && OpOk(w, op) && op.Rename? && !MovesRootBelow(w, op)
    requires !IsRoot(w.roots, Join(w.dirs[op.ino]))
    requires Names(w, op, from) && op.target in w.watch
    ensures EventOk(from) && EventOk(ToEvent(w, op))
    ensures Synced(HandleOne(HandleOne(FsStep(w, op), from, nftw), ToEvent(w, op), nftw))
  {
    var src, dst, m := w.dirs[op.ino], w.dirs[op.target] + [op.name], Monitored(w.dirs, w.roots);
    DepartureTracks(w, FsStep(w, op), src, dst, from, nftw, m);
    MovedToTracks(w.dirs, op, HandleOne(FsStep(w, op), from, nftw), nftw, m - Below(w.dirs, src));
    RenameMonitored(w, op);
  }

  lemma MovedOutSynced(w: World, op: Op, from: Event, nftw: Order)
    requires Synced(w) && OpOk(w, op) && op.Rename? && !MovesRootBelow(w, op)
    requires !IsRoot(w.roots, Join(w.dirs[op.ino]))
    requires Names(w, op, from) && op.target !in w.watch
    ensures EventOk(from) && Synced(HandleOne(FsStep(w, op), from, nftw))
  {
    var src, dst, m := w.dirs[op.ino], w.dirs[op.target] + [op.name], Monitored(w.dirs, w.roots);
    DepartureTracks(w, FsStep(w, op), src, dst, from, nftw, m);
    RenameMonitored(w, op);
  }

  lemma MovedInSynced(w: World, op: Op, nftw: Order)
    requires OrderOk(nftw) && Synced(w) && OpOk(w, op) && op.Rename? && !MovesRootBelow(w, op)
    requires !IsRoot(w.roots, Join(w.dirs[op.ino]))
    requires !Covered(w.roots, w.dirs[op.ino]) && op.target in w.watch
    ensures EventOk(ToEvent(w, op)) && Synced(HandleOne(FsStep(w, op), ToEvent(w, op), nftw))
  {
    var m, b, w1 := Monitored(w.dirs, w.roots), Below(w.dirs, w.dirs[op.ino]), FsStep(w, op);
    UncoveredBelow(w, op);
    assert m - b == m;
    forall i | i in m ensures i in w1.dirs && w1.dirs[i] == w.dirs[i] { assert i !in b; }
    TracksFrame(w, w1, m);
    MovedToTracks(w.dirs, op, w1, nftw, m);
    RenameMonitored(w, op);
    assert Monitored(w1.dirs, w.roots) == m + b;
  }

  lemma MovedOutsideSynced(w: World, op: Op)
    requires Synced(w) && OpOk(w, op) && op.Rename? && !MovesRootBelow(w, op)
    requires !IsRoot(w.roots, Join(w.dirs[op.ino]))
    requires !Covered(w.roots, w.dirs[op.ino]) && op.target !in w.watch
    ensures Synced(FsStep(w, op))
  {
    UncoveredBelow(w, op);
    TracksFrame(w, FsStep(w, op), Monitored(w.dirs, w.roots));
    RenameMonitored(w, op);
  }

  lemma RenameReport(w: World, op: Op)
    requires op.Rename? && op.ino in w.dirs && !IsRoot(w.roots, Join(w.dirs[op.ino]))
    ensures HasWatchedParent(w, w.dirs[op.ino]) && op.target in w.watch ==>
              Report(w, op) == [FromEvent(w, op), ToEvent(w, op)]
    ensures HasWatchedParent(w, w.dirs[op.ino]) && op.target !in w.watch ==>
              Report(w, op) == [FromEvent(w, op)]
    ensures !HasWatchedParent(w, w.dirs[op.ino]) && op.target in w.watch ==>
              Report(w, op) == [ToEvent(w, op)]
    ensures !HasWatchedParent(w, w.dirs[op.ino]) && op.target !in w.watch ==> Report(w, op) == []
  {
  }

  lemma RenamePairSynced(w: World, op: Op, gs: seq<Group>, nftw: Order)
    requires OrderOk(nftw) && Synced(w) && OpOk(w, op) && op.Rename? && !MovesRootBelow(w, op)
    requires !IsRoot(w.roots, Join(w.dirs[op.ino]))
    requires HasWatchedParent(w, w.dirs[op.ino]) && op.target in w.watch
    requires GroupingOf([FromEvent(w, op), ToEvent(w, op)], gs)
    ensures AllOk(gs) && Synced(HandleAll(FsStep(w, op), gs, nftw))
  {
    DepartureNames(w, op);
    ParentWatched(w, op.ino);
    PairSynced(w, op, FromEvent(w, op), nftw);
    SplitRenameSynced(w, op, FromEvent(w, op), nftw);
    TwoHandled(FsStep(w, op), FromEvent(w, op), ToEvent(w, op), gs, nftw);
  }

  /** A rename of a directory that is not a root, whichever way its events are grouped. */
  lemma RenameSynced(w: World, op: Op, gs: seq<Group>, nftw: Order)
    requires OrderOk(nftw) && Synced(w) && OpOk(w, op) && op.Rename? && !MovesRootBelow(w, op)
    requires !IsRoot(w.roots, Join(w.dirs[op.ino]))
    requires GroupingOf(Report(w, op), gs)
    ensures AllOk(gs) && Synced(HandleAll(FsStep(w, op), gs, nftw))
  {
    RenameReport(w, op);
    if HasWatchedParent(w, w.dirs[op.ino]) && op.target in w.watch {
      RenamePairSynced(w, op, gs, nftw);
    } else if HasWatchedParent(w, w.dirs[op.ino]) {
      DepartureNames(w, op);
      MovedOutSynced(w, op, FromEvent(w, op), nftw);
      OneHandled(FsStep(w, op), FromEvent(w, op), gs, nftw);
    } else {
      ParentWatched(w, op.ino);
      if op.target in w.watch {
        MovedInSynced(w, op, nftw);
        OneHandled(FsStep(w, op), ToEvent(w, op), gs, nftw);
      } else {
        MovedOutsideSynced(w, op);
      }
    }
  }

  lemma UncoveredBelow(w: World, op: Op)
    requires FsOk(w) && OpOk(w, op) && op.Rename? && !MovesRootBelow(w, op) && !Covered(w.roots, w.dirs[op.ino])
    requires !IsRoot(w.roots, Join(w.dirs[op.ino]))
    ensures Monitored(w.dirs, w.roots) !! Below(w.dirs, w.dirs[op.ino])
  {
    NoRootBelow(w, op);
    forall i | i in Below(w.dirs, w.dirs[op.ino]) ensures !Covered(w.roots, w.dirs[i]) {
      NotCoveredBelow(w.roots, w.dirs[op.ino], w.dirs[i]);
    }
  }

  // ---------------------------------------------------------------- a root that moves

  lemma ZapRootMonitored(dirs: map<nat, Path>, roots: seq<Option<string>>, src: Path)
    requires RootsOk(dirs, roots) && WellFormed(src) && Some(Join(src)) in roots
    ensures Monitored(dirs, ZapRoot(roots, Join(src))) == Monitored(dirs, roots) - Below(dirs, src)
    ensures RootsOk(dirs, ZapRoot(roots, Join(src)))
    ensures forall s :: Some(s) in ZapRoot(roots, Join(src)) ==> !(src <= Split(s))
  {
    var roots' := ZapRoot(roots, Join(src));
    SplitJoin(src);
    ZapRootElements(roots, Join(src));
    ZapRootAt(roots, Join(src));
    forall i | i in dirs
      ensures Covered(roots', dirs[i]) <==> Covered(roots, dirs[i]) && !(src <= dirs[i])
    {
      if Covered(roots', dirs[i]) {
        var s :| Some(s) in roots' && Split(s) <= dirs[i];
        assert Some(s) in roots;
        if src <= dirs[i] { Comparable(src, Split(s), dirs[i]); }
      }
      if Covered(roots, dirs[i]) && !(src <= dirs[i]) {
        var s :| Some(s) in roots && Split(s) <= dirs[i];
        assert Some(s) in roots';
      }
    }
  }

  lemma RootMovedOutMonitored(w: World, op: Op)
    requires FsOk(w) && OpOk(w, op) && op.Rename? && !MovesRootBelow(w, op) && !Covered(w.roots, w.dirs[op.target])
    requires IsRoot(w.roots, Join(w.dirs[op.ino]))
    ensures var src := w.dirs[op.ino];
            var w1 := FsStep(w, op).(roots := ZapRoot(w.roots, Join(src)));
            FsOk(w1) && Monitored(w1.dirs, w1.roots) == Monitored(w.dirs, w.roots) - Below(w.dirs, src)
  {
    var src, dst := w.dirs[op.ino], w.dirs[op.target] + [op.name];
    var roots' := ZapRoot(w.roots, Join(src));
    SplitJoin(src);
    ZapRootElements(w.roots, Join(src));
    ZapRootMonitored(w.dirs, w.roots, src);
    RenameFsOk(w, op, roots');
    MonitoredAfterRename(w.dirs, roots', src, dst);
    TargetCovered(w, op);
    if Covered(roots', dst) { CoveredLess(w.roots, roots', dst); }
    var m, b := Monitored(w.dirs, w.roots), Below(w.dirs, src);
    assert (m - b) - b == m - b;
  }

  lemma RootMovedOutSynced(w: World, op: Op, nftw: Order)
    requires Synced(w) && OpOk(w, op) && op.Rename? && !MovesRootBelow(w, op) && !RootIntoTree(w, op)
    requires IsRoot(w.roots, Join(w.dirs[op.ino]))
    ensures var src := w.dirs[op.ino];
            Synced(ZapSubtree(FsStep(w, op).(roots := ZapRoot(w.roots, Join(src))), Join(src), nftw))
  {
    RootMovedOutMonitored(w, op);
    MovedAwayTracks(w, ZapRoot(w.roots, Join(w.dirs[op.ino])), w.dirs[op.ino],
                    w.dirs[op.target] + [op.name], nftw, Monitored(w.dirs, w.roots));
  }

  lemma MovedAwayTracks(w: World, roots: seq<Option<string>>, src: Path, dst: Path, nftw: Order, m: set<nat>)
    requires TreeOk(w.dirs) && Tracks(w, m) && WellFormed(src)
    ensures var w1 := w.(dirs := GraftAll(w.dirs, src, dst), roots := roots);
            var w2 := ZapSubtree(w1, Join(src), nftw);
            Tracks(w2, m - Below(w.dirs, src)) && w2.dirs == w1.dirs && w2.roots == roots
  {
    SplitJoin(src);
    ZapTracks(w, w.(dirs := GraftAll(w.dirs, src, dst), roots := roots), Join(src), nftw, m);
  }

  lemma CoveredLess(roots: seq<Option<string>>, roots': seq<Option<string>>, p: Path)
    requires forall s :: Some(s) in roots' ==> Some(s) in roots
    requires Covered(roots', p)
    ensures Covered(roots, p)
  {
    var s :| Some(s) in roots' && Split(s) <= p;
    assert Some(s) in roots;
  }

  function SelfEvent(w: World, ino: nat): Event
    requires ino in w.watch
  {
    Event(w.watch[ino], {MoveSelf}, 0, "", 0)
  }

  lemma RootReport(w: World, op: Op)
    requires op.Rename? && op.ino in w.watch && op.ino in w.dirs
    requires IsRoot(w.roots, Join(w.dirs[op.ino])) && !HasWatchedParent(w, w.dirs[op.ino])
    ensures op.target !in w.watch ==> Report(w, op) == [SelfEvent(w, op.ino)]
    ensures op.target in w.watch ==> Report(w, op) == [ToEvent(w, op), SelfEvent(w, op.ino)]
  {
  }

  /** A root that is moved out of every monitored tree is dropped with all it contains. */
  lemma RootMovedOut(w: World, op: Op, gs: seq<Group>, nftw: Order)
    requires Synced(w) && OpOk(w, op) && op.Rename? && !MovesRootBelow(w, op) && !RootIntoTree(w, op)
    requires IsRoot(w.roots, Join(w.dirs[op.ino]))
    requires GroupingOf(Report(w, op), gs)
    ensures AllOk(gs) && Synced(HandleAll(FsStep(w, op), gs, nftw))
  {
    RootWatched(w, op.ino);
    RootReport(w, op);
    HandleMoveSelf(FsStep(w, op), SelfEvent(w, op.ino), Join(w.dirs[op.ino]), nftw);
    OneHandled(FsStep(w, op), SelfEvent(w, op.ino), gs, nftw);
    RootMovedOutSynced(w, op, nftw);
  }

  lemma RootWatched(w: World, ino: nat)
    requires Synced(w) && ino in w.dirs && IsRoot(w.roots, Join(w.dirs[ino]))
    ensures ino in w.watch && w.watch[ino] > 0
    ensures w.watch[ino] in w.cache && w.cache[w.watch[ino]] == Join(w.dirs[ino])
    ensures !HasWatchedParent(w, w.dirs[ino])
  {
    SplitJoin(w.dirs[ino]);
    assert Covered(w.roots, w.dirs[ino]);
    ParentWatched(w, ino);
  }

  lemma HandleMoveSelf(w: World, self: Event, s: string, nftw: Order)
    requires self.wd in w.cache && self.wd > 0 && self.mask == {MoveSelf}
    requires w.cache[self.wd] == s && IsRoot(w.roots, s)
    ensures EventOk(self)
    ensures HandleOne(w, self, nftw) == ZapSubtree(w.(roots := ZapRoot(w.roots, s)), s, nftw)
  {
  }

  // ---------------------------------------------------------------- the theorem

  lemma HandleFileChange(w: World, e: Event, nftw: Order)
    requires e.wd in w.cache && e.wd > 0
    requires exists flag :: flag in {Create, MovedFrom, MovedTo} && e.mask == {flag}
    ensures EventOk(e) && HandleOne(w, e, nftw) == w
  {
  }

  lemma FileChangeSynced(w: World, op: Op, gs: seq<Group>, nftw: Order)
    requires Synced(w) && OpOk(w, op) && op.FileChange?
    requires GroupingOf(Report(w, op), gs)
    ensures AllOk(gs) && HandleAll(FsStep(w, op), gs, nftw) == w
  {
    if op.parent in w.watch {
      var e := Event(w.watch[op.parent], {op.flag}, 0, op.name, NameLen(op.name));
      GroupingOne(e, gs);
      HandleFileChange(w, e, nftw);
      HandleAllOne(w, One(e), nftw);
    } else {
      assert Report(w, op) == [];
    }
  }

  /** After any lost events, whether or not all roots survived them, the overflow event makes
      the cache that of the directories that are still monitored. */
  lemma BurstSynced(w: World, op: Op, gs: seq<Group>, nftw: Order)
    requires OrderOk(nftw) && OpOk(w, op) && op.Burst?
    requires GroupingOf(Report(w, op), gs)
    ensures AllOk(gs)
    ensures var w' := HandleAll(FsStep(w, op), gs, nftw);
            Mirrors(w') && w'.dirs == op.dirs && w'.roots == w.roots
  {
    var e := Event(-1, {QOverflow}, 0, "", 0);
    GroupingOne(e, gs);
    HandleAllOne(FsStep(w, op), One(e), nftw);
    ReinitMirrors(FsStep(w, op), nftw);
  }

  lemma OpKeepsSynced(w: World, op: Op, gs: seq<Group>, nftw: Order)
    requires OrderOk(nftw) && Synced(w) && OpOk(w, op) && Followed(w, op)
    requires GroupingOf(Report(w, op), gs)
    ensures AllOk(gs) && Mirrors(HandleAll(FsStep(w, op), gs, nftw))
    ensures !RootVanishes(w, op) ==> Synced(HandleAll(FsStep(w, op), gs, nftw))
  {
    match op
    case Mkdir(_, _, _) => MkdirSynced(w, op, gs, nftw);
    case Rmdir(_) => RmdirSynced(w, op, gs, nftw);
    case Rename(ino, _, _, _) =>
      if IsRoot(w.roots, Join(w.dirs[ino])) { RootMovedOut(w, op, gs, nftw); }
      else { RenameSynced(w, op, gs, nftw); }
    case FileChange(_, _, _) => FileChangeSynced(w, op, gs, nftw);
    case Burst(_, _) => BurstSynced(w, op, gs, nftw);
  }
}
