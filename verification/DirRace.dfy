/** The race between mkdir() and the event reader: directories may be created, at any
    depth and in any number, before the events of earlier creations have been handled.

    A step is the creation of one directory, whose event joins the queue if its parent is
    watched by then, or the handling of the event at the head of the queue. The invariant is
    that every monitored directory is tracked or announced: an event in the queue names it
    or a directory above it that is not tracked either, so that the walk which this event
    will start finds it. Once the queue is empty, nothing is announced, and all is tracked. */
module DirRace {
  import opened Options
  import opened Paths
  import opened DirWorld
  import opened DirOps
  import opened DirSync

  datatype State = State(w: World, queue: seq<Event>)

  ghost predicate Create1(s: State, s': State) {
    exists op: Op :: op.Mkdir? && OpOk(s.w, op)
                     && s' == State(FsStep(s.w, op), s.queue + Report(s.w, op))
  }

  ghost predicate Read1(s: State, s': State, nftw: Order) {
    && s.queue != [] && EventOk(s.queue[0])
    && s' == State(HandleOne(s.w, s.queue[0], nftw), s.queue[1..])
  }

  ghost predicate Next(s: State, s': State, nftw: Order) {
    Create1(s, s') || Read1(s, s', nftw)
  }

  /** `e` reports a creation in the watched directory `u`. */
  ghost predicate Reports(w: World, e: Event, u: nat) {
    u in w.watch && u in w.dirs && NoSlash(e.name) && e == DirEvent(w.watch[u], Create, 0, e.name)
  }

  ghost predicate Reported(w: World, e: Event) {
    exists u :: Reports(w, e, u)
  }

  ghost predicate Untracked(w: World, d: Path) {
    forall j :: j in w.watch && j in w.dirs ==> w.dirs[j] != d
  }

  /** Handling `e` will make the reader walk over directory `i`. */
  ghost predicate Announces(w: World, e: Event, u: nat, i: nat) {
    && Reports(w, e, u) && i in w.dirs
    && Untracked(w, w.dirs[u] + [e.name]) && w.dirs[u] + [e.name] <= w.dirs[i]
  }

  ghost predicate Announced(w: World, queue: seq<Event>, i: nat) {
    exists k, u :: 0 <= k < |queue| && Announces(w, queue[k], u, i)
  }

  ghost predicate AllReported(w: World, queue: seq<Event>) {
    forall k :: 0 <= k < |queue| ==> Reported(w, queue[k])
  }

  /** Every monitored directory that is not tracked yet has an event on its way. */
  ghost predicate AllAnnounced(w: World, queue: seq<Event>) {
    forall i :: i in Monitored(w.dirs, w.roots) ==> i in w.watch || Announced(w, queue, i)
  }

  ghost predicate WatchesOk(w: World) {
    Tracks(w, w.watch.Keys) && w.watch.Keys <= Monitored(w.dirs, w.roots)
  }

  ghost predicate Inv(s: State) {
    FsOk(s.w) && WatchesOk(s.w) && AllReported(s.w, s.queue) && AllAnnounced(s.w, s.queue)
  }

  lemma InitInv(w: World)
    requires Synced(w)
    ensures Inv(State(w, []))
  {
  }

  lemma QuietIsSynced(s: State)
    requires Inv(s) && s.queue == []
    ensures Synced(s.w)
  {
    assert s.w.watch.Keys == Monitored(s.w.dirs, s.w.roots);
  }

  lemma AllReportedKept(w: World, w': World, queue: seq<Event>)
    requires Extends(w, w') && AllReported(w, queue)
    ensures AllReported(w', queue)
  {
    forall k | 0 <= k < |queue| ensures Reported(w', queue[k]) {
      assert Reported(w, queue[k]);
      var u :| Reports(w, queue[k], u);
      assert Reports(w', queue[k], u);
    }
  }

  // ---------------------------------------------------------------- mkdir

  lemma CoveredMade(w: World, op: Op)
    requires FsOk(w) && op.Mkdir? && OpOk(w, op)
    requires Covered(w.roots, w.dirs[op.parent] + [op.name])
    ensures Covered(w.roots, w.dirs[op.parent])
  {
    var d := w.dirs[op.parent] + [op.name];
    var s :| Some(s) in w.roots && Split(s) <= d;
    assert Split(s) != d;
    assert Split(s) <= w.dirs[op.parent];
  }

  /** A queued event still announces directory `j`, and with it everything below. */
  lemma StillAnnounced(w: World, w': World, queue: seq<Event>, queue': seq<Event>, j: nat, i: nat)
    requires Extends(w, w') && w'.watch == w.watch && w.watch.Keys <= w.dirs.Keys
    requires Announced(w, queue, j) && queue <= queue'
    requires i in w'.dirs && w.dirs[j] <= w'.dirs[i]
    ensures Announced(w', queue', i)
  {
    var k, u :| 0 <= k < |queue| && Announces(w, queue[k], u, j);
    assert queue'[k] == queue[k];
    assert Announces(w', queue'[k], u, i);
  }

  /** The event of a creation in a watched directory announces the new directory. */
  lemma NewAnnounced(w: World, op: Op, queue: seq<Event>)
    requires WatchesOk(w) && op.Mkdir? && OpOk(w, op) && op.parent in w.watch
    ensures Announced(FsStep(w, op), queue + Report(w, op), op.ino)
  {
    var w', e := FsStep(w, op), DirEvent(w.watch[op.parent], Create, 0, op.name);
    assert (queue + [e])[|queue|] == e;
    assert Announces(w', e, op.parent, op.ino);
  }

  /** In one that is not watched yet, what announces the parent announces it too. */
  lemma NewAnnouncedByParent(w: World, op: Op, queue: seq<Event>)
    requires FsOk(w) && WatchesOk(w) && AllAnnounced(w, queue) && op.Mkdir? && OpOk(w, op)
    requires op.ino in Monitored(FsStep(w, op).dirs, w.roots) && op.parent !in w.watch
    ensures Announced(FsStep(w, op), queue + Report(w, op), op.ino)
  {
    CoveredMade(w, op);
    assert op.parent in Monitored(w.dirs, w.roots);
    StillAnnounced(w, FsStep(w, op), queue, queue + Report(w, op), op.parent, op.ino);
  }

  lemma CreateAnnounces(w: World, op: Op, queue: seq<Event>, i: nat)
    requires FsOk(w) && WatchesOk(w) && AllAnnounced(w, queue) && op.Mkdir? && OpOk(w, op)
    requires i in Monitored(FsStep(w, op).dirs, w.roots) && i !in w.watch
    ensures Announced(FsStep(w, op), queue + Report(w, op), i)
  {
    if i != op.ino {
      assert i in Monitored(w.dirs, w.roots);
      StillAnnounced(w, FsStep(w, op), queue, queue + Report(w, op), i, i);
    } else if op.parent in w.watch {
      NewAnnounced(w, op, queue);
    } else {
      NewAnnouncedByParent(w, op, queue);
    }
  }

  lemma MkdirReported(w: World, op: Op, queue: seq<Event>)
    requires AllReported(w, queue) && op.Mkdir? && OpOk(w, op)
    ensures AllReported(FsStep(w, op), queue + Report(w, op))
  {
    var w', queue' := FsStep(w, op), queue + Report(w, op);
    AllReportedKept(w, w', queue);
    forall k | 0 <= k < |queue'| ensures Reported(w', queue'[k]) {
      if k < |queue| {
        assert queue'[k] == queue[k];
      } else {
        assert Reports(w', queue'[k], op.parent);
      }
    }
  }

  lemma CreateKeepsWatches(w: World, op: Op)
    requires FsOk(w) && WatchesOk(w) && op.Mkdir? && OpOk(w, op)
    ensures WatchesOk(FsStep(w, op))
  {
    TracksFrame(w, FsStep(w, op), w.watch.Keys);
  }

  lemma CreateAllAnnounced(w: World, op: Op, queue: seq<Event>)
    requires FsOk(w) && WatchesOk(w) && AllAnnounced(w, queue) && op.Mkdir? && OpOk(w, op)
    ensures AllAnnounced(FsStep(w, op), queue + Report(w, op))
  {
    forall i | i in Monitored(FsStep(w, op).dirs, w.roots) && i !in w.watch
      ensures Announced(FsStep(w, op), queue + Report(w, op), i)
    {
      CreateAnnounces(w, op, queue, i);
    }
  }

  lemma CreateInv(s: State, s': State)
    requires Inv(s) && Create1(s, s')
    ensures Inv(s')
  {
    var op: Op :| op.Mkdir? && OpOk(s.w, op) && s' == State(FsStep(s.w, op), s.queue + Report(s.w, op));
    MkdirFsOk(s.w, op);
    CreateKeepsWatches(s.w, op);
    MkdirReported(s.w, op, s.queue);
    CreateAllAnnounced(s.w, op, s.queue);
  }

  // ---------------------------------------------------------------- reading an event

  /** An event whose directory is already cached is skipped; otherwise its whole subtree
      becomes tracked. Neither disturbs the watches there were. */
  lemma ReadTracks(w: World, e: Event, u: nat, nftw: Order, m: set<nat>)
    requires OrderOk(nftw) && TreeOk(w.dirs) && Tracks(w, m) && m == w.watch.Keys && Reports(w, e, u)
    ensures EventOk(e)
    ensures !Untracked(w, w.dirs[u] + [e.name]) ==> HandleOne(w, e, nftw) == w
    ensures Untracked(w, w.dirs[u] + [e.name]) ==>
              var w' := HandleOne(w, e, nftw);
              && Tracks(w', m + Below(w.dirs, w.dirs[u] + [e.name]))
              && w'.dirs == w.dirs && w'.roots == w.roots
    ensures Extends(w, HandleOne(w, e, nftw))
  {
    var d := w.dirs[u] + [e.name];
    JoinSnoc(w.dirs[u], e.name);
    TraverseAllExtends(w, nftw(Subtree(w.dirs, Join(d))));
    if Untracked(w, d) {
      ArrivalTracks(w, u, e, nftw, m);
    } else {
      var j :| j in w.watch && j in w.dirs && w.dirs[j] == d;
      assert w.cache[w.watch[j]] == Join(d);
      assert w.watch[j] in w.cache && Join(d) in w.cache.Values;
    }
  }

  lemma ReadAnnounces(w: World, w': World, queue: seq<Event>, u: nat, i: nat)
    requires WatchesOk(w) && queue != [] && Reports(w, queue[0], u)
    requires Extends(w, w') && w'.dirs == w.dirs
    requires var d := w.dirs[u] + [queue[0].name];
             if Untracked(w, d) then w'.watch.Keys == w.watch.Keys + Below(w.dirs, d) else w' == w
    requires Announced(w, queue, i) && i !in w'.watch
    ensures Announced(w', queue[1..], i)
  {
    var d := w.dirs[u] + [queue[0].name];
    var k, v :| 0 <= k < |queue| && Announces(w, queue[k], v, i);
    var c := w.dirs[v] + [queue[k].name];
    assert k == 0 ==> u == v;
    assert k != 0;
    assert queue[1..][k-1] == queue[k];
    forall j | j in w'.watch && j in w'.dirs ensures w'.dirs[j] != c {
      assert w'.dirs[j] == c && j !in w.watch ==> i in Below(w.dirs, d);
    }
    assert Announces(w', queue[1..][k-1], v, i);
  }

  lemma ReportCovered(w: World, e: Event, u: nat)
    requires w.watch.Keys <= Monitored(w.dirs, w.roots) && Reports(w, e, u)
    ensures Below(w.dirs, w.dirs[u] + [e.name]) <= Monitored(w.dirs, w.roots)
  {
    CoveredBelow(w.roots, w.dirs[u], w.dirs[u] + [e.name]);
    BelowMonitored(w.dirs, w.roots, w.dirs[u] + [e.name]);
  }

  lemma ReadWatchesOk(w: World, e: Event, u: nat, nftw: Order)
    requires OrderOk(nftw) && FsOk(w) && WatchesOk(w) && Reports(w, e, u)
    ensures EventOk(e)
    ensures var w' := HandleOne(w, e, nftw);
            && FsOk(w') && WatchesOk(w') && Extends(w, w') && w'.dirs == w.dirs && w'.roots == w.roots
            && var d := w.dirs[u] + [e.name];
            if Untracked(w, d) then w'.watch.Keys == w.watch.Keys + Below(w.dirs, d) else w' == w
  {
    ReadTracks(w, e, u, nftw, w.watch.Keys);
    ReportCovered(w, e, u);
  }

  lemma ReadReported(w: World, w': World, queue: seq<Event>)
    requires Extends(w, w') && AllReported(w, queue) && queue != []
    ensures AllReported(w', queue[1..])
  {
    AllReportedKept(w, w', queue);
    assert forall k :: 0 <= k < |queue[1..]| ==> queue[1..][k] == queue[k+1];
  }

  lemma ReadAllAnnounced(w: World, w': World, queue: seq<Event>, u: nat)
    requires WatchesOk(w) && AllAnnounced(w, queue) && queue != [] && Reports(w, queue[0], u)
    requires Extends(w, w') && w'.dirs == w.dirs && w'.roots == w.roots
    requires var d := w.dirs[u] + [queue[0].name];
             if Untracked(w, d) then w'.watch.Keys == w.watch.Keys + Below(w.dirs, d) else w' == w
    ensures AllAnnounced(w', queue[1..])
  {
    forall i | i in Monitored(w'.dirs, w'.roots) ensures i in w'.watch || Announced(w', queue[1..], i) {
      if i !in w'.watch { ReadAnnounces(w, w', queue, u, i); }
    }
  }

  lemma ReadInv(s: State, s': State, nftw: Order)
    requires OrderOk(nftw) && Inv(s) && Read1(s, s', nftw)
    ensures Inv(s')
  {
    assert Reported(s.w, s.queue[0]);
    var u :| Reports(s.w, s.queue[0], u);
    ReadWatchesOk(s.w, s.queue[0], u, nftw);
    ReadReported(s.w, s'.w, s.queue);
    ReadAllAnnounced(s.w, s'.w, s.queue, u);
  }

  // ---------------------------------------------------------------- whole runs

  lemma NextInv(s: State, s': State, nftw: Order)
    requires OrderOk(nftw) && Inv(s) && Next(s, s', nftw)
    ensures Inv(s')
  {
    if Create1(s, s') { CreateInv(s, s'); } else { ReadInv(s, s', nftw); }
  }

  lemma {:induction false} RunInv(ss: seq<State>, nftw: Order, n: nat)
    requires OrderOk(nftw) && n < |ss| && Synced(ss[0].w) && ss[0].queue == []
    requires forall k :: 0 <= k < |ss| - 1 ==> Next(ss[k], ss[k+1], nftw)
    ensures Inv(ss[n])
  {
    if n == 0 {
      InitInv(ss[0].w);
    } else {
      RunInv(ss, nftw, n - 1);
      NextInv(ss[n-1], ss[n], nftw);
    }
  }

  lemma NeverLost(s: State, e: Event)
    requires Inv(s) && e in s.queue
    ensures EventOk(e) && !Lost(s.w, e)
  {
    var k :| 0 <= k < |s.queue| && s.queue[k] == e;
    assert Reported(s.w, s.queue[k]);
    var u :| Reports(s.w, e, u);
  }

  /** However creations and event handling interleave, the cache never asks for a rebuild,
      and whenever the queue has been read to its end it mirrors the trees again. */
  lemma RaceEndsSynced(ss: seq<State>, nftw: Order, n: nat)
    requires OrderOk(nftw) && n < |ss| && Synced(ss[0].w) && ss[0].queue == []
    requires forall k :: 0 <= k < |ss| - 1 ==> Next(ss[k], ss[k+1], nftw)
    ensures forall e :: e in ss[n].queue ==> EventOk(e) && !Lost(ss[n].w, e)
    ensures ss[n].queue == [] ==> Synced(ss[n].w)
  {
    RunInv(ss, nftw, n);
    forall e | e in ss[n].queue ensures EventOk(e) && !Lost(ss[n].w, e) {
      NeverLost(ss[n], e);
    }
    if ss[n].queue == [] { QuietIsSynced(ss[n]); }
  }
}
