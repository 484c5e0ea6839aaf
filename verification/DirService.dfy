/** The watch cache at work: a change to the directory tree, and the reads that follow.

    Here the class meets the theorems. What a call of the event loop has handled is a prefix
    of the grouping of what was read, and all of it unless the loop stopped at a rebuild; by
    `DirSteady` the events of one operation contain no reason for a rebuild, so all of them
    were handled; and by `DirSync` that puts the slot array back in step with the trees. How
    many reads it takes is settled by the reads themselves: a "moved from" at the end of one
    makes the loop read once more, so the two events of a rename may come apart. When the
    read in between times out, the second event is left to the next call of the loop. */
module DirService {
  import Options
  import opened Paths
  import opened DirWorld
  import opened DirOps
  import opened DirSync
  import opened DirSteady
  import opened EventBuffer
  import opened DirCache

  /** If the reads that are wanted deliver the events of an operation, in one piece or with a
      "moved from" left hanging, those are the reads made; the slot array then mirrors the
      monitored trees again, and it was not rebuilt for that. */
  method Serve(monitor: DirMonitor, op: Op, results: seq<Read>)
    returns (used: nat, handled: seq<Group>, rebuilt: bool)
    requires monitor.Valid() && OrderOk(monitor.nftw) && Synced(monitor.World()) && ReadsOk(results)
    requires OpOk(monitor.World(), op) && Followed(monitor.World(), op) && !op.Burst?
    modifies monitor, monitor.wlCache
    ensures monitor.Valid() && 0 < used <= |results|
    ensures AllEvents(results[..Needed(results)]) == old(Report(monitor.World(), op)) ==>
              used == Needed(results) && !rebuilt && Synced(monitor.World())
    ensures InTwoReads(results, old(Report(monitor.World(), op))) ==>
              used == 2 && !rebuilt && Synced(monitor.World())
  {
    ghost var w := monitor.World();
    monitor.FileSystemChange(op);
    used, handled, rebuilt := monitor.ProcessInotifyEvents(results);
    WantedHandled(w, op, results, used, handled, rebuilt, monitor.nftw);
    RenameNeedsTwo(results, Report(w, op));
  }

  /** The two events of a rename come in two reads. */
  predicate InTwoReads(results: seq<Read>, report: seq<Event>) {
    && |results| > 1 && |report| == 2 && IsRename(report[0], report[1])
    && results[0] == Got([report[0]]) && results[1] == Got([report[1]])
  }

  lemma RenameNeedsTwo(results: seq<Read>, report: seq<Event>)
    ensures InTwoReads(results, report) ==> Needed(results) == 2 && AllEvents(results[..2]) == report
  {
    if InTwoReads(results, report) {
      assert EndsHanging(results[0]) && !EndsHanging(results[1]);
      assert results[1..][0] == results[1];
      AllEventsOne(results);
      AllEventsNext(results, 1);
    }
  }

  lemma WantedHandled(w: World, op: Op, results: seq<Read>, used: nat, handled: seq<Group>, rebuilt: bool,
                      nftw: Order)
    requires OrderOk(nftw) && Synced(w) && OpOk(w, op) && Followed(w, op) && !op.Burst? && ReadsOk(results)
    requires 0 < used <= Needed(results) && (!rebuilt ==> used == Needed(results))
    requires AllOk(handled) && handled <= GroupUp(AllEvents(results[..used]))
    requires !rebuilt ==> handled == GroupUp(AllEvents(results[..used]))
    requires rebuilt == LastRebuilds(FsStep(w, op), handled, nftw)
    ensures AllEvents(results[..Needed(results)]) == Report(w, op) ==>
              used == Needed(results) && !rebuilt && Synced(HandleAll(FsStep(w, op), handled, nftw))
  {
    var es := AllEvents(results[..used]);
    if AllEvents(results[..Needed(results)]) == Report(w, op) {
      ReadSoFar(results, used, Needed(results));
      if es == Report(w, op) {
        AllHandled(w, op, handled, rebuilt, nftw);
        OpKeepsSynced(w, op, handled, nftw);
      } else {
        HalfHandled(w, op, es, handled, rebuilt, nftw);
      }
    }
  }

  lemma {:induction false} ReadSoFar(results: seq<Read>, used: nat, n: nat)
    requires ReadsOk(results) && 0 < used <= n <= |results|
    ensures [] < AllEvents(results[..used]) <= AllEvents(results[..n])
    decreases n
  {
    if n == 1 {
      AllEventsOne(results);
    } else {
      AllEventsNext(results, n - 1);
      if used < n { ReadSoFar(results, used, n - 1); } else { ReadSoFar(results, n - 1, n - 1); }
    }
  }

  /** Not even the first of two events makes the handler rebuild the cache. */
  lemma HalfHandled(w: World, op: Op, es: seq<Event>, handled: seq<Group>, rebuilt: bool, nftw: Order)
    requires OrderOk(nftw) && Synced(w) && OpOk(w, op) && Followed(w, op) && !op.Burst?
    requires [] < es < Report(w, op) && AllOk(handled) && handled <= GroupUp(es)
    requires rebuilt == LastRebuilds(FsStep(w, op), handled, nftw)
    ensures !rebuilt
  {
    ReportShort(w, op);
    var e, f := Report(w, op)[0], Report(w, op)[1];
    Halves(es, Report(w, op));
    SinglyTwo(e, f);
    GroupingOne(e, GroupUp([e]));
    OpSteady(w, op, [One(e), One(f)], nftw);
    NoneRebuilds(FsStep(w, op), [One(e), One(f)], handled, nftw);
  }

  lemma ReportShort(w: World, op: Op)
    requires Synced(w) && OpOk(w, op) && Followed(w, op) && !op.Burst?
    ensures |Report(w, op)| <= 2
  {
    if op.Rename? {
      if IsRoot(w.roots, Join(w.dirs[op.ino])) {
        RootWatched(w, op.ino);
        RootReport(w, op);
      } else {
        RenameReport(w, op);
      }
    }
  }

  lemma Halves<T>(es: seq<T>, r: seq<T>)
    requires [] < es < r && |r| <= 2
    ensures es == [r[0]] && r == [r[0], r[1]]
  {
  }

  lemma AllHandled(w: World, op: Op, handled: seq<Group>, rebuilt: bool, nftw: Order)
    requires OrderOk(nftw) && Synced(w) && OpOk(w, op) && Followed(w, op) && !op.Burst?
    requires AllOk(handled) && handled <= GroupUp(Report(w, op))
    requires !rebuilt ==> handled == GroupUp(Report(w, op))
    requires rebuilt == LastRebuilds(FsStep(w, op), handled, nftw)
    ensures !rebuilt
  {
    OpSteady(w, op, GroupUp(Report(w, op)), nftw);
    NoneRebuilds(FsStep(w, op), GroupUp(Report(w, op)), handled, nftw);
  }

  lemma NoneRebuilds(w1: World, gs: seq<Group>, handled: seq<Group>, nftw: Order)
    requires AllOk(gs) && Steady(w1, gs, nftw) && AllOk(handled) && handled <= gs
    ensures !LastRebuilds(w1, handled, nftw)
  {
    if handled != [] {
      SteadyPrefix(w1, gs, |handled|, nftw);
      assert handled[..|handled|-1] == gs[..|handled|-1];
    }
  }

  /** The same when a timeout has cut a rename in two: the first call of the loop gets only
      the departure, the second the arrival. */
  method ServeApart(monitor: DirMonitor, op: Op, first: seq<Read>, second: seq<Read>)
    returns (used1: nat, used2: nat)
    requires monitor.Valid() && OrderOk(monitor.nftw) && Synced(monitor.World())
    requires ReadsOk(first) && ReadsOk(second)
    requires OpOk(monitor.World(), op) && Followed(monitor.World(), op) && !op.Burst?
    modifies monitor, monitor.wlCache
    ensures monitor.Valid() && 0 < used1 <= |first| && 0 < used2 <= |second|
    ensures OneEach(AllEvents(first[..used1]), AllEvents(second[..used2]), old(Report(monitor.World(), op))) ==>
              Synced(monitor.World())
  {
    ghost var w := monitor.World();
    monitor.FileSystemChange(op);
    var handled1, rebuilt1, handled2, rebuilt2;
    used1, handled1, rebuilt1 := monitor.ProcessInotifyEvents(first);
    ghost var w2 := monitor.World();
    used2, handled2, rebuilt2 := monitor.ProcessInotifyEvents(second);
    BothHandled(w, op, AllEvents(first[..used1]), AllEvents(second[..used2]),
                handled1, rebuilt1, w2, handled2, rebuilt2, monitor.nftw);
  }

  /** Each of the two calls got one of the two events. */
  predicate OneEach(es: seq<Event>, fs: seq<Event>, report: seq<Event>) {
    |es| == 1 && |fs| == 1 && es + fs == report
  }

  lemma Ones<T>(es: seq<T>, fs: seq<T>, r: seq<T>)
    requires |es| == 1 && |fs| == 1 && es + fs == r
    ensures es == [es[0]] && fs == [fs[0]] && r == [es[0], fs[0]]
  {
  }

  lemma BothHandled(w: World, op: Op, es: seq<Event>, fs: seq<Event>, handled1: seq<Group>, rebuilt1: bool, w2: World,
                    handled2: seq<Group>, rebuilt2: bool, nftw: Order)
    requires OrderOk(nftw) && Synced(w) && OpOk(w, op) && Followed(w, op) && !op.Burst?
    requires AllOk(handled1) && AllOk(handled2)
    requires handled1 <= GroupUp(es) && (!rebuilt1 ==> handled1 == GroupUp(es))
    requires rebuilt1 == LastRebuilds(FsStep(w, op), handled1, nftw)
    requires w2 == HandleAll(FsStep(w, op), handled1, nftw)
    requires handled2 <= GroupUp(fs) && (!rebuilt2 ==> handled2 == GroupUp(fs))
    requires rebuilt2 == LastRebuilds(w2, handled2, nftw)
    ensures OneEach(es, fs, Report(w, op)) ==> Synced(HandleAll(w2, handled2, nftw))
  {
    if OneEach(es, fs, Report(w, op)) {
      Ones(es, fs, Report(w, op));
      EachHandled(w, op, es[0], fs[0], handled1, rebuilt1, w2, handled2, rebuilt2, nftw);
    }
  }

  lemma EachHandled(w: World, op: Op, e: Event, f: Event, handled1: seq<Group>, rebuilt1: bool, w2: World,
                    handled2: seq<Group>, rebuilt2: bool, nftw: Order)
    requires OrderOk(nftw) && Synced(w) && OpOk(w, op) && Followed(w, op) && !op.Burst?
    requires Report(w, op) == [e, f] && AllOk(handled1) && AllOk(handled2)
    requires handled1 <= GroupUp([e]) && (!rebuilt1 ==> handled1 == GroupUp([e]))
    requires rebuilt1 == LastRebuilds(FsStep(w, op), handled1, nftw)
    requires w2 == HandleAll(FsStep(w, op), handled1, nftw)
    requires handled2 <= GroupUp([f]) && (!rebuilt2 ==> handled2 == GroupUp([f]))
    requires rebuilt2 == LastRebuilds(w2, handled2, nftw)
    ensures Synced(HandleAll(w2, handled2, nftw))
  {
    var w1, gs := FsStep(w, op), [One(e), One(f)];
    SinglyTwo(e, f);
    GroupingOne(e, GroupUp([e]));
    GroupingOne(f, GroupUp([f]));
    OpSteady(w, op, gs, nftw);
    FirstAlone(w1, e, f, handled1, rebuilt1, nftw);
    HandleAllOne(w1, One(e), nftw);
    HandleAllTwo(w1, One(e), One(f), nftw);
    SecondAlone(w1, e, f, handled2, rebuilt2, nftw);
    HandleAllOne(w2, One(f), nftw);
    OpKeepsSynced(w, op, gs, nftw);
  }

  lemma FirstAlone(w1: World, e: Event, f: Event, handled: seq<Group>, rebuilt: bool, nftw: Order)
    requires AllOk([One(e), One(f)]) && Steady(w1, [One(e), One(f)], nftw)
    requires handled <= [One(e)] && (!rebuilt ==> handled == [One(e)]) && AllOk(handled)
    requires rebuilt == LastRebuilds(w1, handled, nftw)
    ensures handled == [One(e)]
  {
    NoneRebuilds(w1, [One(e), One(f)], handled, nftw);
  }

  lemma SecondAlone(w1: World, e: Event, f: Event, handled: seq<Group>, rebuilt: bool, nftw: Order)
    requires AllOk([One(e), One(f)]) && Steady(w1, [One(e), One(f)], nftw)
    requires handled <= [One(f)] && (!rebuilt ==> handled == [One(f)]) && AllOk(handled)
    requires rebuilt == LastRebuilds(HandleAll(w1, [One(e)], nftw), handled, nftw)
    ensures handled == [One(f)]
  {
    if handled != [] {
      SteadyPrefix(w1, [One(e), One(f)], 2, nftw);
      assert handled == [One(f)] && handled[..0] == [] && [One(e), One(f)][..1] == [One(e)];
    }
  }

  lemma SinglyTwo(e: Event, f: Event)
    ensures Singly([e, f]) == [One(e), One(f)]
  {
    assert [e, f][1..] == [f] && [f][1..] == [];
    assert Singly([f]) == [One(f)] + Singly([]);
  }

  /** A new monitor mirrors the trees below its roots. */
  method Start(dirs: map<nat, Path>, roots: seq<string>, nftw: Order) returns (monitor: DirMonitor)
    requires OrderOk(nftw) && TreeOk(dirs)
    requires RootsOk(dirs, seq(|roots|, k requires 0 <= k < |roots| => Options.Some(roots[k])))
    ensures fresh(monitor) && monitor.Valid() && Synced(monitor.World())
  {
    monitor := new DirMonitor(dirs, roots, nftw);
    ReinitSyncs(World(dirs, map[], 1, map[], monitor.rootDirPaths), nftw);
  }
}
