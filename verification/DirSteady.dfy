/** The rebuild is a last resort: the events of an operation never ask for one.

    A handler gives up in four cases: the event names a descriptor that is not cached, events
    were lost, or a watch that is to be removed, below a directory that has departed or a root
    that has moved, is unknown to the kernel. The lemmas take the operations in turn and show
    of each group of events, in the state in which it is handled, that none of these is the
    case. For a rename whose events are handled apart that state is the one that the departure
    has left: the directory that receives the arrival is still cached, because the target of
    a rename does not lie below its source. */
module DirSteady {
  import opened Options
  import opened Paths
  import opened DirWorld
  import opened DirOps
  import opened DirSync

  /** None of the groups, handled in turn, makes the handler rebuild the cache. */
  ghost predicate Steady(w: World, gs: seq<Group>, nftw: Order)
    requires AllOk(gs)
  {
    gs == [] ||
    var n := |gs| - 1;
    Steady(w, gs[..n], nftw) && !Rebuilds(HandleAll(w, gs[..n], nftw), gs[n])
  }

  lemma SteadyOne(w: World, g: Group, nftw: Order)
    requires g.Ok() && !Rebuilds(w, g)
    ensures AllOk([g]) && Steady(w, [g], nftw)
  {
    assert [g][..0] == [];
  }

  lemma SteadyTwo(w: World, g: Group, h: Group, nftw: Order)
    requires g.Ok() && h.Ok() && !Rebuilds(w, g) && !Rebuilds(Handle(w, g, nftw), h)
    ensures AllOk([g, h]) && Steady(w, [g, h], nftw)
  {
    SteadyOne(w, g, nftw);
    HandleAllOne(w, g, nftw);
    assert [g, h][..1] == [g];
  }

  /** Every watch that the cache knows is known to the kernel. */
  lemma CachedIsWatched(w: World, m: set<nat>, s: string)
    requires Tracks(w, m)
    ensures Doomed(w.cache, s) <= w.watch.Values
  {
    forall wd | wd in Doomed(w.cache, s) ensures wd in w.watch.Values {
      assert Held(w.watch, wd);
    }
  }

  lemma Fine(w: World, e: Event, flag: Flag)
    requires e.wd in w.cache && e.wd > 0 && (e.mask == {flag, IsDir} || e.mask == {flag})
    requires flag in {Create, MovedTo, DeleteSelf} || (flag == MovedFrom && e.mask == {flag})
    ensures EventOk(e) && !Rebuilds(w, One(e))
  {
  }

  lemma DepartureFine(w: World, e: Event)
    requires e.wd in w.cache && e.wd > 0 && e.mask == {MovedFrom, IsDir}
    requires Doomed(w.cache, w.cache[e.wd] + "/" + e.name) <= w.watch.Values
    ensures EventOk(e) && IsDeparture(e) && !Rebuilds(w, One(e))
  {
  }

  lemma SelfFine(w: World, e: Event)
    requires e.wd in w.cache && e.wd > 0 && e.mask == {MoveSelf}
    requires Doomed(w.cache, w.cache[e.wd]) <= w.watch.Values
    ensures EventOk(e) && !Rebuilds(w, One(e))
  {
  }

  lemma ParentCached(w: World, i: nat)
    requires Synced(w) && i in w.watch
    ensures w.watch[i] in w.cache && w.watch[i] > 0
  {
  }

  lemma RmdirSteady(w: World, op: Op, gs: seq<Group>, nftw: Order)
    requires Synced(w) && OpOk(w, op) && op.Rmdir? && GroupingOf(Report(w, op), gs)
    ensures AllOk(gs) && Steady(FsStep(w, op), gs, nftw)
  {
    if op.ino in w.watch {
      var wd := w.watch[op.ino];
      var e, f := Event(wd, {DeleteSelf}, 0, "", 0), Event(wd, {Ignored}, 0, "", 0);
      GroupingTwo(e, f, gs);
      Fine(FsStep(w, op), e, DeleteSelf);
      SteadyTwo(FsStep(w, op), One(e), One(f), nftw);
    }
  }

  lemma RootSteady(w: World, op: Op, gs: seq<Group>, nftw: Order)
    requires Synced(w) && OpOk(w, op) && op.Rename? && !MovesRootBelow(w, op) && !RootIntoTree(w, op)
    requires IsRoot(w.roots, Join(w.dirs[op.ino])) && GroupingOf(Report(w, op), gs)
    ensures AllOk(gs) && Steady(FsStep(w, op), gs, nftw)
  {
    RootWatched(w, op.ino);
    RootReport(w, op);
    var e := SelfEvent(w, op.ino);
    GroupingOne(e, gs);
    CachedIsWatched(w, Monitored(w.dirs, w.roots), w.cache[e.wd]);
    SelfFine(FsStep(w, op), e);
    SteadyOne(FsStep(w, op), One(e), nftw);
  }

  lemma DepartureSteady(w: World, op: Op, from: Event)
    requires Synced(w) && op.Rename? && op.ino in w.dirs && op.target in w.dirs && Names(w, op, from)
    ensures EventOk(from) && IsDeparture(from) && !Rebuilds(FsStep(w, op), One(from))
  {
    CachedIsWatched(w, Monitored(w.dirs, w.roots), w.cache[from.wd] + "/" + from.name);
    DepartureFine(FsStep(w, op), from);
  }

  /** Handled apart, the arrival still finds its directory in the cache. */
  lemma ArrivalSteady(w: World, op: Op, from: Event, nftw: Order)
    requires Synced(w) && OpOk(w, op) && op.Rename? && !MovesRootBelow(w, op) && !IsRoot(w.roots, Join(w.dirs[op.ino]))
    requires Names(w, op, from) && op.target in w.watch
    ensures EventOk(from) && EventOk(ToEvent(w, op))
    ensures !Rebuilds(HandleOne(FsStep(w, op), from, nftw), One(ToEvent(w, op)))
  {
    var src, dst, m := w.dirs[op.ino], w.dirs[op.target] + [op.name], Monitored(w.dirs, w.roots);
    DepartureTracks(w, FsStep(w, op), src, dst, from, nftw, m);
    var w2 := HandleOne(FsStep(w, op), from, nftw);
    assert op.target in m - Below(w.dirs, src);
    Fine(w2, ToEvent(w, op), MovedTo);
  }

  lemma PairSteady(w: World, op: Op, gs: seq<Group>, nftw: Order)
    requires Synced(w) && OpOk(w, op) && op.Rename? && !MovesRootBelow(w, op) && !IsRoot(w.roots, Join(w.dirs[op.ino]))
    requires HasWatchedParent(w, w.dirs[op.ino]) && op.target in w.watch
    requires GroupingOf([FromEvent(w, op), ToEvent(w, op)], gs)
    ensures AllOk(gs) && Steady(FsStep(w, op), gs, nftw)
  {
    var w1, from, to := FsStep(w, op), FromEvent(w, op), ToEvent(w, op);
    DepartureNames(w, op);
    DepartureSteady(w, op, from);
    GroupingTwo(from, to, gs);
    if gs == [Pair(from, to)] {
      SteadyOne(w1, Pair(from, to), nftw);
    } else {
      ArrivalSteady(w, op, from, nftw);
      SteadyTwo(w1, One(from), One(to), nftw);
    }
  }

  lemma RenameSteady(w: World, op: Op, gs: seq<Group>, nftw: Order)
    requires Synced(w) && OpOk(w, op) && op.Rename? && !MovesRootBelow(w, op) && !IsRoot(w.roots, Join(w.dirs[op.ino]))
    requires GroupingOf(Report(w, op), gs)
    ensures AllOk(gs) && Steady(FsStep(w, op), gs, nftw)
  {
    RenameReport(w, op);
    var w1 := FsStep(w, op);
    if HasWatchedParent(w, w.dirs[op.ino]) {
      if op.target in w.watch {
        PairSteady(w, op, gs, nftw);
      } else {
        DepartureNames(w, op);
        DepartureSteady(w, op, FromEvent(w, op));
        GroupingOne(FromEvent(w, op), gs);
        SteadyOne(w1, One(FromEvent(w, op)), nftw);
      }
    } else if op.target in w.watch {
      ParentCached(w, op.target);
      Fine(w1, ToEvent(w, op), MovedTo);
      GroupingOne(ToEvent(w, op), gs);
      SteadyOne(w1, One(ToEvent(w, op)), nftw);
    }
  }

  /** However the events of an operation are grouped, handling them needs no rebuild, unless
      events were lost or the operation moved a root into a monitored directory. */
  lemma OpSteady(w: World, op: Op, gs: seq<Group>, nftw: Order)
    requires Synced(w) && OpOk(w, op) && Followed(w, op) && !op.Burst?
    requires GroupingOf(Report(w, op), gs)
    ensures AllOk(gs) && Steady(FsStep(w, op), gs, nftw)
  {
    match op
    case Mkdir(parent, name, ino) =>
      if parent in w.watch {
        var e := DirEvent(w.watch[parent], Create, 0, name);
        ParentCached(w, parent);
        Fine(FsStep(w, op), e, Create);
        GroupingOne(e, gs);
        SteadyOne(FsStep(w, op), One(e), nftw);
      }
    case Rmdir(_) => RmdirSteady(w, op, gs, nftw);
    case Rename(ino, _, _, _) =>
      if IsRoot(w.roots, Join(w.dirs[ino])) { RootSteady(w, op, gs, nftw); }
      else { RenameSteady(w, op, gs, nftw); }
    case FileChange(parent, name, flag) =>
      if parent in w.watch {
        var e := Event(w.watch[parent], {flag}, 0, name, NameLen(name));
        ParentCached(w, parent);
        Fine(w, e, flag);
        GroupingOne(e, gs);
        SteadyOne(w, One(e), nftw);
      }
  }

  /** Nothing handled on the way has rebuilt the cache. */
  lemma {:induction false} SteadyPrefix(w: World, gs: seq<Group>, n: nat, nftw: Order)
    requires AllOk(gs) && Steady(w, gs, nftw) && 0 < n <= |gs|
    ensures !Rebuilds(HandleAll(w, gs[..n-1], nftw), gs[n-1])
    decreases |gs|
  {
    if n < |gs| {
      var k := |gs| - 1;
      SteadyPrefix(w, gs[..k], n, nftw);
      assert gs[..k][..n-1] == gs[..n-1];
    }
  }
}
