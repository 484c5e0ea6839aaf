/** What `inotify_dtree.c` computes, stated on values: the directory tree, the kernel's
    watches, and the cache seen as a map from watch descriptor to pathname. */
module DirWorld {
  import opened Options
  import opened Paths

  datatype Flag =
    | IsDir | Create | MovedFrom | MovedTo | DeleteSelf | MoveSelf | Ignored | QOverflow | Unmount

  /** `struct inotify_event`; `len` counts the bytes of the padded name. */
  datatype Event = Event(wd: int, mask: set<Flag>, cookie: nat, name: string, len: nat)

  /** `dirs` gives the path of every directory i-node (a directory has one name);
      `watch` holds the watches of the current inotify instance, by i-node; `roots` is
      `rootDirPaths`. */
  datatype World = World(dirs: map<nat, Path>, watch: map<nat, int>, nextWd: int,
                         cache: map<int, string>, roots: seq<Option<string>>)

  /** The order in which nftw() reports a set of directories. */
  type Order = set<nat> -> seq<nat>

  ghost predicate OrderOk(nftw: Order) {
    forall s: set<nat>, i: nat :: i in nftw(s) <==> i in s
  }

  // ---------------------------------------------------------------- adding watches

  predicate IsRoot(roots: seq<Option<string>>, s: string) {
    Some(s) in roots
  }

  /** inotify_add_watch(): one descriptor per i-node, new ones numbered upwards. */
  function AddWatch(w: World, i: nat): (int, World) {
    if i in w.watch then (w.watch[i], w)
    else (w.nextWd, w.(watch := w.watch[i := w.nextWd], nextWd := w.nextWd + 1))
  }

  /** One call of traverseTree(), for directory `i`. */
  function Traverse(w: World, i: nat): World {
    if i !in w.dirs then w
    else
      var (wd, w1) := AddWatch(w, i);
      if wd in w1.cache then w1 else w1.(cache := w1.cache[wd := Join(w.dirs[i])])
  }

  function TraverseAll(w: World, ds: seq<nat>): World {
    if ds == [] then w else Traverse(TraverseAll(w, ds[..|ds|-1]), ds[|ds|-1])
  }

  /** The directories at or below pathname `s`. */
  function Subtree(dirs: map<nat, Path>, s: string): set<nat> {
    set i | i in dirs && Under(s, Join(dirs[i]))
  }

  function WatchSubtree(w: World, s: string, nftw: Order): World {
    TraverseAll(w, nftw(Subtree(w.dirs, s)))
  }

  /** reinitialize(): a new inotify instance, an empty cache, every root watched again. */
  function Reinit(w: World, nftw: Order): World {
    WatchRoots(w.(watch := map[], nextWd := 1, cache := map[]), |w.roots|, nftw)
  }

  function WatchRoots(w: World, n: nat, nftw: Order): World
    requires n <= |w.roots|
    ensures WatchRoots(w, n, nftw).roots == w.roots
    ensures WatchRoots(w, n, nftw).dirs == w.dirs
  {
    if n == 0 then w
    else
      var w1 := WatchRoots(w, n - 1, nftw);
      if w.roots[n-1].Some? then
        TraverseAllFrame(w1, nftw(Subtree(w1.dirs, w.roots[n-1].value)));
        WatchSubtree(w1, w.roots[n-1].value, nftw)
      else w1
  }

  lemma TraverseAllFrame(w: World, ds: seq<nat>)
    ensures TraverseAll(w, ds).dirs == w.dirs && TraverseAll(w, ds).roots == w.roots
  {
  }

  // ---------------------------------------------------------------- handling events

  /** What the kernel guarantees about the events it reports. */
  predicate EventOk(e: Event) {
    && (e.wd == -1 <==> QOverflow in e.mask)
    && (QOverflow in e.mask ==> e.mask == {QOverflow})
    && (Ignored in e.mask ==> e.mask == {Ignored})
  }

  predicate Lost(w: World, e: Event) {
    e.wd != -1 && Ignored !in e.mask && e.wd !in w.cache
  }

  predicate IsArrival(e: Event) {
    IsDir in e.mask && (Create in e.mask || MovedTo in e.mask)
  }

  predicate IsDeparture(e: Event) {
    !IsArrival(e) && DeleteSelf !in e.mask && MovedFrom in e.mask && IsDir in e.mask
  }

  predicate IsRename(e: Event, next: Event) {
    IsDeparture(e) && MovedTo in next.mask && next.cookie == e.cookie
  }

  function ZapRoot(roots: seq<Option<string>>, s: string): (r: seq<Option<string>>)
    ensures |r| == |roots|
  {
    if roots == [] then []
    else if roots[0] == Some(s) then [None] + roots[1..]
    else [roots[0]] + ZapRoot(roots[1..], s)
  }

  /** The descriptors of the cached directories at or below pathname `s`. */
  function Doomed(cache: map<int, string>, s: string): set<int> {
    set wd | wd in cache && Under(s, cache[wd])
  }

  /** The watches left when the descriptors in `gone` have been removed. */
  function Unwatch(watch: map<nat, int>, gone: set<int>): map<nat, int> {
    map i | i in watch && watch[i] !in gone :: watch[i]
  }

  /** zapSubtree(), with the rebuild its callers start when a watch cannot be removed. */
  function ZapSubtree(w: World, s: string, nftw: Order): World {
    var doomed := Doomed(w.cache, s);
    if doomed <= w.watch.Values then
      w.(cache := w.cache - doomed, watch := Unwatch(w.watch, doomed))
    else Reinit(w, nftw)
  }

  /** An event handled on its own. */
  function HandleOne(w: World, e: Event, nftw: Order): World
    requires EventOk(e)
  {
    if Lost(w, e) then Reinit(w, nftw)
    else if IsArrival(e) then
      var full := w.cache[e.wd] + "/" + e.name;
      if full in w.cache.Values then w else WatchSubtree(w, full, nftw)
    else if DeleteSelf in e.mask then
      w.(roots := ZapRoot(w.roots, w.cache[e.wd]), cache := w.cache - {e.wd})
    else if IsDeparture(e) then ZapSubtree(w, w.cache[e.wd] + "/" + e.name, nftw)
    else if QOverflow in e.mask then Reinit(w, nftw)
    else if Unmount in e.mask then w.(cache := w.cache - {e.wd})
    else if MoveSelf in e.mask && IsRoot(w.roots, w.cache[e.wd]) then
      ZapSubtree(w.(roots := ZapRoot(w.roots, w.cache[e.wd])), w.cache[e.wd], nftw)
    else w
  }

  function RewriteAll(cache: map<int, string>, full: string, newPrefix: string): map<int, string> {
    map wd | wd in cache :: Rewrite(full, newPrefix, cache[wd])
  }

  /** A "moved from" and its "moved to" handled together. */
  function HandlePair(w: World, from: Event, to: Event, nftw: Order): World
    requires EventOk(from) && IsRename(from, to)
  {
    if Lost(w, from) || to.wd !in w.cache then Reinit(w, nftw)
    else w.(cache := RewriteAll(w.cache, w.cache[from.wd] + "/" + from.name,
                                         w.cache[to.wd] + "/" + to.name))
  }

  /** The events consumed by one call of processNextInotifyEvent(). */
  datatype Group = One(e: Event) | Pair(from: Event, to: Event) {
    function Events(): seq<Event> {
      if One? then [e] else [from, to]
    }
    predicate Ok() {
      if One? then EventOk(e) else EventOk(from) && EventOk(to) && IsRename(from, to)
    }
  }

  function Handle(w: World, g: Group, nftw: Order): World
    requires g.Ok()
  {
    if g.One? then HandleOne(w, g.e, nftw) else HandlePair(w, g.from, g.to, nftw)
  }

  /** Handling `g` gives up on the cache and rebuilds it. */
  predicate Rebuilds(w: World, g: Group)
    requires g.Ok()
  {
    if g.Pair? then Lost(w, g.from) || g.to.wd !in w.cache
    else
      || Lost(w, g.e)
      || QOverflow in g.e.mask
      || (IsDeparture(g.e) && !(Doomed(w.cache, w.cache[g.e.wd] + "/" + g.e.name) <= w.watch.Values))
      || (!IsArrival(g.e) && !IsDeparture(g.e) && g.e.mask !! {DeleteSelf, Unmount} && MoveSelf in g.e.mask
          && IsRoot(w.roots, w.cache[g.e.wd]) && !(Doomed(w.cache, w.cache[g.e.wd]) <= w.watch.Values))
  }

  ghost predicate AllOk(gs: seq<Group>) {
    forall g :: g in gs ==> g.Ok()
  }

  function HandleAll(w: World, gs: seq<Group>, nftw: Order): World
    requires AllOk(gs)
  {
    if gs == [] then w else Handle(HandleAll(w, gs[..|gs|-1], nftw), gs[|gs|-1], nftw)
  }

  /** Adjacent rename events with the same cookie belong together. */
  function GroupUp(es: seq<Event>): seq<Group> {
    if es == [] then []
    else if |es| > 1 && IsRename(es[0], es[1]) then [Pair(es[0], es[1])] + GroupUp(es[2..])
    else [One(es[0])] + GroupUp(es[1..])
  }

  function Singly(es: seq<Event>): seq<Group> {
    if es == [] then [] else [One(es[0])] + Singly(es[1..])
  }

  // ---------------------------------------------------------------- being in sync

  ghost predicate IsDirectory(dirs: map<nat, Path>, p: Path) {
    exists i :: i in dirs && dirs[i] == p
  }

  ghost predicate HasParent(dirs: map<nat, Path>, i: nat)
    requires i in dirs
  {
    |dirs[i]| > 1 ==> IsDirectory(dirs, dirs[i][..|dirs[i]|-1])
  }

  ghost predicate TreeOk(dirs: map<nat, Path>) {
    && (forall i :: i in dirs ==> WellFormed(dirs[i]))
    && (forall i {:trigger HasParent(dirs, i)} :: i in dirs ==> HasParent(dirs, i))
    && (forall i, j :: i in dirs && j in dirs && dirs[i] == dirs[j] ==> i == j)
  }

  /** The roots exist, none lies below another, and none is listed twice. */
  ghost predicate RootsOk(dirs: map<nat, Path>, roots: seq<Option<string>>) {
    && (forall s :: Some(s) in roots ==> IsDirectory(dirs, Split(s)))
    && (forall s, t :: Some(s) in roots && Some(t) in roots && Split(s) <= Split(t) ==> s == t)
    && (forall i, j :: 0 <= i < j < |roots| && roots[i].Some? ==> roots[i] != roots[j])
  }

  ghost predicate Covered(roots: seq<Option<string>>, p: Path) {
    exists s :: Some(s) in roots && Split(s) <= p
  }

  /** The directories that lie at or below a root that is still monitored. */
  ghost function Monitored(dirs: map<nat, Path>, roots: seq<Option<string>>): set<nat> {
    set i | i in dirs && Covered(roots, dirs[i])
  }

  ghost predicate Held(watch: map<nat, int>, wd: int) {
    exists i :: i in watch && watch[i] == wd
  }

  /** The cache and the watches describe exactly the directories in `m`: each has one
      watch, the descriptors are pairwise distinct, each descriptor has one cache entry,
      and that entry holds the right pathname. */
  ghost predicate Tracks(w: World, m: set<nat>) {
    && 0 < w.nextWd
    && m <= w.dirs.Keys
    && w.watch.Keys == m
    && (forall i :: i in m ==> 0 < w.watch[i] < w.nextWd)
    && (forall i :: i in m ==> w.watch[i] in w.cache && w.cache[w.watch[i]] == Join(w.dirs[i]))
    && (forall wd :: wd in w.cache ==> Held(w.watch, wd))
    && (forall i, j :: i in m && j in m && w.watch[i] == w.watch[j] ==> i == j)
  }

  ghost predicate FsOk(w: World) {
    TreeOk(w.dirs) && RootsOk(w.dirs, w.roots)
  }

  /** The watches and the cache are those of the monitored directories. */
  ghost predicate Mirrors(w: World) {
    Tracks(w, Monitored(w.dirs, w.roots))
  }

  ghost predicate Synced(w: World) {
    FsOk(w) && Mirrors(w)
  }

  // ---------------------------------------------------------------- traversal

  /** Visiting one more directory adds exactly that directory, whether or not it was
      already watched. */
  lemma TraverseTracks(w: World, i: nat, m: set<nat>)
    requires Tracks(w, m) && i in w.dirs
    ensures Tracks(Traverse(w, i), m + {i})
  {
    var w' := Traverse(w, i);
    if i in w.watch {
      assert m + {i} == m;
    } else {
      assert !Held(w.watch, w.nextWd);
      assert w'.watch[i] == w.nextWd;
      forall wd | wd in w'.cache ensures Held(w'.watch, wd) {
        if wd in w.cache { var j :| j in w.watch && w.watch[j] == wd; assert w'.watch[j] == wd; }
      }
    }
  }

  /** No directory and no watch there was has changed. */
  ghost predicate Extends(w: World, w': World) {
    && (forall i :: i in w.watch ==> i in w'.watch && w'.watch[i] == w.watch[i])
    && (forall i :: i in w.dirs ==> i in w'.dirs && w'.dirs[i] == w.dirs[i])
  }

  lemma {:induction false} TraverseAllExtends(w: World, ds: seq<nat>)
    ensures Extends(w, TraverseAll(w, ds))
  {
    if ds != [] { TraverseAllExtends(w, ds[..|ds|-1]); }
  }

  ghost function Elements(ds: seq<nat>): set<nat> {
    set i | i in ds
  }

  lemma ElementsSnoc(ds: seq<nat>, m: set<nat>)
    requires ds != []
    ensures m + Elements(ds) == (m + Elements(ds[..|ds|-1])) + {ds[|ds|-1]}
  {
    assert ds == ds[..|ds|-1] + [ds[|ds|-1]];
  }

  lemma {:induction false} TraverseAllTracks(w: World, ds: seq<nat>, m: set<nat>)
    requires Tracks(w, m)
    requires forall i :: i in ds ==> i in w.dirs
    ensures Tracks(TraverseAll(w, ds), m + Elements(ds))
  {
    if ds == [] {
      assert m + Elements(ds) == m;
    } else {
      var js, i := ds[..|ds|-1], ds[|ds|-1];
      assert forall j :: j in js ==> j in ds;
      TraverseAllTracks(w, js, m);
      TraverseAllFrame(w, js);
      ElementsSnoc(ds, m);
      TraverseTracks(TraverseAll(w, js), i, m + Elements(js));
    }
  }

  /** watchSubtree() adds exactly the subtree. */
  lemma WatchSubtreeTracks(w: World, s: string, nftw: Order, m: set<nat>)
    requires OrderOk(nftw) && Tracks(w, m)
    ensures WatchSubtree(w, s, nftw).dirs == w.dirs && WatchSubtree(w, s, nftw).roots == w.roots
    ensures Tracks(WatchSubtree(w, s, nftw), m + Subtree(w.dirs, s))
  {
    var ds := nftw(Subtree(w.dirs, s));
    TraverseAllTracks(w, ds, m);
    TraverseAllFrame(w, ds);
    assert Elements(ds) == Subtree(w.dirs, s);
  }

  ghost function CoveredBy(dirs: map<nat, Path>, roots: seq<Option<string>>, n: nat): set<nat>
    requires n <= |roots|
  {
    set i | i in dirs && exists k :: 0 <= k < n && roots[k].Some? && Split(roots[k].value) <= dirs[i]
  }

  ghost function Below(dirs: map<nat, Path>, p: Path): set<nat> {
    set i | i in dirs && p <= dirs[i]
  }

  lemma SubtreeIsDescendants(dirs: map<nat, Path>, p: Path)
    requires TreeOk(dirs) && WellFormed(p)
    ensures Subtree(dirs, Join(p)) == Below(dirs, p)
  {
    forall i | i in dirs ensures Under(Join(p), Join(dirs[i])) <==> p <= dirs[i] {
      PrefixTestIsDescendant(p, dirs[i]);
    }
  }

  lemma CoveredByNext(dirs: map<nat, Path>, roots: seq<Option<string>>, n: nat)
    requires TreeOk(dirs) && 0 < n <= |roots|
    ensures CoveredBy(dirs, roots, n)
         == CoveredBy(dirs, roots, n - 1)
            + (if roots[n-1].Some? then Subtree(dirs, roots[n-1].value) else {})
  {
    if roots[n-1].Some? {
      SubtreeIsDescendants(dirs, Split(roots[n-1].value));
    }
  }

  lemma {:induction false} WatchRootsTracks(w: World, n: nat, nftw: Order)
    requires OrderOk(nftw) && TreeOk(w.dirs) && Tracks(w, {}) && n <= |w.roots|
    ensures Tracks(WatchRoots(w, n, nftw), CoveredBy(w.dirs, w.roots, n))
  {
    if n == 0 {
      assert CoveredBy(w.dirs, w.roots, 0) == {};
    } else {
      WatchRootsTracks(w, n - 1, nftw);
      CoveredByNext(w.dirs, w.roots, n);
      if w.roots[n-1].Some? {
        WatchSubtreeTracks(WatchRoots(w, n - 1, nftw), w.roots[n-1].value, nftw,
                           CoveredBy(w.dirs, w.roots, n - 1));
      }
    }
  }

  lemma CoveredByAll(dirs: map<nat, Path>, roots: seq<Option<string>>)
    ensures CoveredBy(dirs, roots, |roots|) == Monitored(dirs, roots)
  {
    forall i | i in Monitored(dirs, roots)
      ensures exists k :: 0 <= k < |roots| && roots[k].Some? && Split(roots[k].value) <= dirs[i]
    {
      var s :| Some(s) in roots && Split(s) <= dirs[i];
      var k :| 0 <= k < |roots| && roots[k] == Some(s);
    }
  }

  /** Whatever the cache and the watches held, and whether or not all roots still exist, a
      rebuild makes them those of the monitored directories. */
  lemma ReinitMirrors(w: World, nftw: Order)
    requires OrderOk(nftw) && TreeOk(w.dirs)
    ensures Mirrors(Reinit(w, nftw))
    ensures Reinit(w, nftw).dirs == w.dirs && Reinit(w, nftw).roots == w.roots
  {
    var w0 := w.(watch := map[], nextWd := 1, cache := map[]);
    WatchRootsTracks(w0, |w.roots|, nftw);
    CoveredByAll(w.dirs, w.roots);
  }

  lemma HandleKeepsDirs(w: World, g: Group, nftw: Order)
    requires g.Ok()
    ensures Handle(w, g, nftw).dirs == w.dirs
  {
    if g.One? && !Lost(w, g.e) && IsArrival(g.e) {
      var full := w.cache[g.e.wd] + "/" + g.e.name;
      TraverseAllFrame(w, nftw(Subtree(w.dirs, full)));
    }
  }

  lemma {:induction false} HandleAllKeepsDirs(w: World, gs: seq<Group>, nftw: Order)
    requires AllOk(gs)
    ensures HandleAll(w, gs, nftw).dirs == w.dirs
  {
    if gs != [] {
      HandleAllKeepsDirs(w, gs[..|gs|-1], nftw);
      HandleKeepsDirs(HandleAll(w, gs[..|gs|-1], nftw), gs[|gs|-1], nftw);
    }
  }

  /** Whatever has put the cache out of step with the events, an event whose descriptor is
      unknown included, the rebuild that follows puts it right. */
  lemma RebuildMirrors(w: World, g: Group, nftw: Order)
    requires OrderOk(nftw) && TreeOk(w.dirs) && g.Ok() && Rebuilds(w, g)
    ensures Mirrors(Handle(w, g, nftw))
  {
    ReinitMirrors(w, nftw);
    if g.One? && g.e.wd in w.cache {
      ReinitMirrors(w.(roots := ZapRoot(w.roots, w.cache[g.e.wd])), nftw);
    }
  }

  /** The events the program has no use for change nothing: those of files, those that follow
      the removal of a watch, and moves of a directory that is not a root. */
  lemma OthersIgnored(w: World, e: Event, nftw: Order)
    requires EventOk(e) && e.mask !! {DeleteSelf, QOverflow, Unmount}
    requires e.mask == {Ignored} || (IsDir !in e.mask && e.wd in w.cache
                                     && (MoveSelf in e.mask ==> Some(w.cache[e.wd]) !in w.roots))
    ensures HandleOne(w, e, nftw) == w
  {
  }

  lemma ReinitSyncs(w: World, nftw: Order)
    requires OrderOk(nftw) && FsOk(w)
    ensures Synced(Reinit(w, nftw))
    ensures Reinit(w, nftw).dirs == w.dirs && Reinit(w, nftw).roots == w.roots
  {
    ReinitMirrors(w, nftw);
  }
}
