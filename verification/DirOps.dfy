/** Operations on the directory tree, the events the kernel reports for them, and what a
    rename does to trees, roots and the directories that are monitored. */
module DirOps {
  import opened Options
  import opened Paths
  import opened DirWorld

  /** `Rename` moves directory `ino` into directory `target` under a new name. `Burst`
      stands for any number of changes whose events overflowed the queue. */
  datatype Op =
    | Mkdir(parent: nat, name: string, ino: nat)
    | Rmdir(ino: nat)
    | Rename(ino: nat, target: nat, name: string, cookie: nat)
    | FileChange(parent: nat, name: string, flag: Flag)
    | Burst(dirs: map<nat, Path>, watch: map<nat, int>)

  // ---------------------------------------------------------------- the file system

  function GraftAll(dirs: map<nat, Path>, src: Path, dst: Path): map<nat, Path> {
    map i | i in dirs :: Graft(src, dst, dirs[i])
  }

  /** What one system call does to the tree; removing a directory removes its watch. */
  function FsStep(w: World, op: Op): World
    requires op.Mkdir? ==> op.parent in w.dirs
    requires op.Rename? ==> op.ino in w.dirs && op.target in w.dirs
  {
    match op
    case Mkdir(parent, name, ino) => w.(dirs := w.dirs[ino := w.dirs[parent] + [name]])
    case Rmdir(ino) => w.(dirs := w.dirs - {ino}, watch := w.watch - {ino})
    case Rename(ino, target, name, _) =>
      w.(dirs := GraftAll(w.dirs, w.dirs[ino], w.dirs[target] + [name]))
    case FileChange(_, _, _) => w
    case Burst(dirs, watch) => w.(dirs := dirs, watch := watch)
  }

  /** The name field is padded to a multiple of the size of the event header. */
  function NameLen(name: string): nat {
    if name == "" then 0 else (|name| + 16) / 16 * 16
  }

  function DirEvent(wd: int, flag: Flag, cookie: nat, name: string): Event {
    Event(wd, {flag, IsDir}, cookie, name, NameLen(name))
  }

  ghost predicate HasWatchedParent(w: World, p: Path) {
    |p| > 1 && exists i :: i in w.watch && i in w.dirs && w.dirs[i] == p[..|p|-1]
  }

  ghost function ParentWd(w: World, p: Path): int
    requires HasWatchedParent(w, p)
  {
    var i :| i in w.watch && i in w.dirs && w.dirs[i] == p[..|p|-1];
    w.watch[i]
  }

  /** The events reported for `op`, issued in world `w`. */
  ghost function Report(w: World, op: Op): seq<Event>
    requires op.Rename? ==> op.ino in w.dirs
  {
    match op
    case Mkdir(parent, name, ino) =>
      if parent in w.watch then [DirEvent(w.watch[parent], Create, 0, name)] else []
    case Rmdir(ino) =>
      if ino in w.watch then
        [Event(w.watch[ino], {DeleteSelf}, 0, "", 0), Event(w.watch[ino], {Ignored}, 0, "", 0)]
      else []
    case Rename(ino, target, name, cookie) =>
      var src := w.dirs[ino];
      (if HasWatchedParent(w, src) then
         [DirEvent(ParentWd(w, src), MovedFrom, cookie, src[|src|-1])] else [])
      + (if target in w.watch then [DirEvent(w.watch[target], MovedTo, cookie, name)] else [])
      + (if ino in w.watch && IsRoot(w.roots, Join(src)) then
           [Event(w.watch[ino], {MoveSelf}, 0, "", 0)] else [])
    case FileChange(parent, name, flag) =>
      if parent in w.watch then [Event(w.watch[parent], {flag}, 0, name, NameLen(name))] else []
    case Burst(_, _) => [Event(-1, {QOverflow}, 0, "", 0)]
  }

  /** The system call succeeds, and its target does not exist yet. */
  ghost predicate OpOk(w: World, op: Op) {
    match op
    case Mkdir(parent, name, ino) =>
      && parent in w.dirs && ino !in w.dirs && ino !in w.watch && NoSlash(name)
      && !IsDirectory(w.dirs, w.dirs[parent] + [name])
    case Rmdir(ino) =>
      && ino in w.dirs
      && (forall j :: j in w.dirs && w.dirs[ino] <= w.dirs[j] ==> j == ino)
    case Rename(ino, target, name, _) =>
      && ino in w.dirs && target in w.dirs && NoSlash(name)
      && !IsDirectory(w.dirs, w.dirs[target] + [name])
      && !(w.dirs[ino] <= w.dirs[target])
    case FileChange(parent, name, flag) =>
      parent in w.dirs && flag in {Create, MovedFrom, MovedTo}
    case Burst(dirs, watch) => TreeOk(dirs)
  }

  /** Moving a directory that has a root strictly below it. */
  ghost predicate MovesRootBelow(w: World, op: Op) {
    && op.Rename? && op.ino in w.dirs
    && exists s :: RootBelow(w.roots, w.dirs[op.ino], s)
  }

  ghost predicate RootBelow(roots: seq<Option<string>>, p: Path, s: string) {
    Some(s) in roots && p <= Split(s) && p != Split(s)
  }

  /** The operations that the program can follow. */
  ghost predicate Followed(w: World, op: Op) {
    !RootIntoTree(w, op) && !MovesRootBelow(w, op)
  }

  /** Among the changes whose events were lost, a root has gone. */
  ghost predicate RootVanishes(w: World, op: Op) {
    op.Burst? && exists s :: Some(s) in w.roots && !IsDirectory(op.dirs, Split(s))
  }

  /** Renaming a root into a directory that is itself monitored. */
  ghost predicate RootIntoTree(w: World, op: Op) {
    && op.Rename? && op.ino in w.dirs
    && IsRoot(w.roots, Join(w.dirs[op.ino]))
    && op.target in Monitored(w.dirs, w.roots)
  }

  // ---------------------------------------------------------------- trees and roots

  lemma {:induction false} PrefixIsDirectory(dirs: map<nat, Path>, i: nat, q: Path)
    requires TreeOk(dirs) && i in dirs && q != [] && q <= dirs[i]
    ensures IsDirectory(dirs, q)
    decreases |dirs[i]|
  {
    if q != dirs[i] {
      var p := dirs[i][..|dirs[i]|-1];
      assert HasParent(dirs, i);
      var j :| j in dirs && dirs[j] == p;
      PrefixIsDirectory(dirs, j, q);
    }
  }

  lemma Comparable(a: Path, b: Path, c: Path)
    requires a <= c && b <= c
    ensures a <= b || b <= a
  {
    if |a| <= |b| { assert a == c[..|a|] == b[..|a|]; } else { assert b == c[..|b|] == a[..|b|]; }
  }

  ghost predicate MoveOk(dirs: map<nat, Path>, ino: nat, target: nat, name: string) {
    && TreeOk(dirs) && ino in dirs && target in dirs && NoSlash(name)
    && !IsDirectory(dirs, dirs[target] + [name]) && !(dirs[ino] <= dirs[target])
  }

  lemma GraftClosed(dirs: map<nat, Path>, ino: nat, target: nat, name: string, i: nat)
    requires MoveOk(dirs, ino, target, name) && i in dirs
    ensures HasParent(GraftAll(dirs, dirs[ino], dirs[target] + [name]), i)
  {
    var src, dst := dirs[ino], dirs[target] + [name];
    var dirs' := GraftAll(dirs, src, dst);
    var p, p' := dirs[i], dirs'[i];
    if p == src {
      assert p' == dst && p'[..|p'|-1] == dirs[target] == dirs'[target];
    } else if |p'| > 1 {
      assert WellFormed(src) && HasParent(dirs, i);
      var j :| j in dirs && dirs[j] == p[..|p|-1];
      GraftParent(src, dst, p);
      assert dirs'[j] == p'[..|p'|-1];
    }
  }

  lemma GraftParent(src: Path, dst: Path, p: Path)
    requires src != [] && p != src && |p| > 1
    ensures var p' := Graft(src, dst, p); p' != [] && Graft(src, dst, p[..|p|-1]) == p'[..|p'|-1]
  {
    var q, p' := p[..|p|-1], Graft(src, dst, p);
    if src <= p {
      assert src <= q;
      assert p[|src|..] == q[|src|..] + [p[|p|-1]];
      assert p' == (dst + q[|src|..]) + [p[|p|-1]];
    }
  }

  lemma GraftDistinct(dirs: map<nat, Path>, ino: nat, target: nat, name: string, i: nat, j: nat)
    requires MoveOk(dirs, ino, target, name) && i in dirs && j in dirs
    requires var dirs' := GraftAll(dirs, dirs[ino], dirs[target] + [name]); dirs'[i] == dirs'[j]
    ensures i == j
  {
    var src, dst := dirs[ino], dirs[target] + [name];
    if dst <= dirs[i] { PrefixIsDirectory(dirs, i, dst); }
    if dst <= dirs[j] { PrefixIsDirectory(dirs, j, dst); }
    GraftInjective(src, dst, dirs[i], dirs[j]);
  }

  lemma GraftTreeOk(dirs: map<nat, Path>, ino: nat, target: nat, name: string)
    requires MoveOk(dirs, ino, target, name)
    ensures TreeOk(GraftAll(dirs, dirs[ino], dirs[target] + [name]))
  {
    var src, dst := dirs[ino], dirs[target] + [name];
    var dirs' := GraftAll(dirs, src, dst);
    forall i | i in dirs' ensures WellFormed(dirs'[i]) {
      if src <= dirs[i] { assert dirs'[i] == dst + dirs[i][|src|..]; }
    }
    forall i | i in dirs' ensures HasParent(dirs', i) {
      GraftClosed(dirs, ino, target, name, i);
    }
    forall i, j | i in dirs' && j in dirs' && dirs'[i] == dirs'[j] ensures i == j {
      GraftDistinct(dirs, ino, target, name, i, j);
    }
  }

  lemma GraftRootsOk(dirs: map<nat, Path>, roots: seq<Option<string>>, src: Path, dst: Path)
    requires RootsOk(dirs, roots)
    requires forall s :: Some(s) in roots ==> !(src <= Split(s))
    ensures RootsOk(GraftAll(dirs, src, dst), roots)
  {
    forall s | Some(s) in roots ensures IsDirectory(GraftAll(dirs, src, dst), Split(s)) {
      var i :| i in dirs && dirs[i] == Split(s);
      assert GraftAll(dirs, src, dst)[i] == Split(s);
    }
  }

  lemma CoveredBelow(roots: seq<Option<string>>, p: Path, q: Path)
    requires Covered(roots, p) && p <= q
    ensures Covered(roots, q)
  {
    var s :| Some(s) in roots && Split(s) <= p;
    assert Split(s) <= q;
  }

  lemma NotCoveredBelow(roots: seq<Option<string>>, p: Path, q: Path)
    requires !Covered(roots, p) && p <= q
    requires forall s :: Some(s) in roots ==> !(p <= Split(s))
    ensures !Covered(roots, q)
  {
    forall s | Some(s) in roots ensures !(Split(s) <= q) {
      if Split(s) <= q { Comparable(Split(s), p, q); }
    }
  }

  /** What a rename does to the set of monitored directories. */
  lemma MonitoredAfterRename(dirs: map<nat, Path>, roots: seq<Option<string>>, src: Path, dst: Path)
    requires TreeOk(dirs) && RootsOk(dirs, roots) && src != [] && WellFormed(dst)
    requires !IsDirectory(dirs, dst)
    requires forall s :: Some(s) in roots ==> !(src <= Split(s))
    ensures Monitored(GraftAll(dirs, src, dst), roots)
         == (Monitored(dirs, roots) - Below(dirs, src))
            + (if Covered(roots, dst) then Below(dirs, src) else {})
  {
    var dirs' := GraftAll(dirs, src, dst);
    forall s | Some(s) in roots ensures !(dst <= Split(s)) {
      if dst <= Split(s) {
        var i :| i in dirs && dirs[i] == Split(s);
        PrefixIsDirectory(dirs, i, dst);
      }
    }
    forall i | i in dirs && src <= dirs[i]
      ensures Covered(roots, dirs'[i]) <==> Covered(roots, dst)
    {
      assert dst <= dirs'[i];
      if Covered(roots, dst) { CoveredBelow(roots, dst, dirs'[i]); }
      else { NotCoveredBelow(roots, dst, dirs'[i]); }
    }
  }

  lemma BelowAfterRename(dirs: map<nat, Path>, src: Path, dst: Path)
    requires TreeOk(dirs) && dst != []
    requires !IsDirectory(dirs, dst)
    ensures Below(GraftAll(dirs, src, dst), dst) == Below(dirs, src)
  {
    var dirs' := GraftAll(dirs, src, dst);
    forall i | i in dirs ensures dst <= dirs'[i] <==> src <= dirs[i] {
      if dst <= dirs'[i] && !(src <= dirs[i]) { PrefixIsDirectory(dirs, i, dst); }
    }
  }

  // ---------------------------------------------------------------- single events

  /** Zapping a subtree drops exactly the directories whose cached pathname lies in it,
      even when the tree itself has moved on from `before`. */
  lemma ZapTracks(before: World, w: World, s: string, nftw: Order, m: set<nat>)
    requires TreeOk(before.dirs) && Tracks(before, m)
    requires w.watch == before.watch && w.cache == before.cache && w.nextWd == before.nextWd
    requires forall i :: i in m && !(Split(s) <= before.dirs[i])
                         ==> i in w.dirs && w.dirs[i] == before.dirs[i]
    ensures Tracks(ZapSubtree(w, s, nftw), m - Below(before.dirs, Split(s)))
    ensures ZapSubtree(w, s, nftw).dirs == w.dirs && ZapSubtree(w, s, nftw).roots == w.roots
    ensures forall i :: i in m - Below(before.dirs, Split(s)) ==>
              ZapSubtree(w, s, nftw).watch[i] == w.watch[i]
  {
    var doomed := Doomed(w.cache, s);
    forall i | i in m ensures w.watch[i] in doomed <==> Split(s) <= before.dirs[i] {
      PrefixTestIsDescendant(Split(s), before.dirs[i]);
    }
    forall wd | wd in doomed ensures wd in w.watch.Values {
      assert Held(w.watch, wd);
    }
    var w' := ZapSubtree(w, s, nftw);
    var m' := m - Below(before.dirs, Split(s));
    assert w'.watch.Keys == m';
    forall wd | wd in w'.cache ensures Held(w'.watch, wd) {
      var i :| i in w.watch && w.watch[i] == wd;
      assert w'.watch[i] == wd;
    }
  }

  lemma NotCached(w: World, dst: Path, m: set<nat>)
    requires TreeOk(w.dirs) && Tracks(w, m) && WellFormed(dst)
    requires forall i :: i in m ==> w.dirs[i] != dst
    ensures Join(dst) !in w.cache.Values
  {
    forall wd | wd in w.cache ensures w.cache[wd] != Join(dst) {
      assert Held(w.watch, wd);
      var i :| i in w.watch && w.watch[i] == wd;
      if w.cache[wd] == Join(dst) { JoinInjective(w.dirs[i], dst); }
    }
  }

  /** An arrival reported on a tracked directory makes the new subtree tracked. */
  lemma ArrivalTracks(w: World, target: nat, e: Event, nftw: Order, m: set<nat>)
    requires OrderOk(nftw) && TreeOk(w.dirs) && Tracks(w, m) && target in m
    requires EventOk(e) && IsArrival(e) && e.wd == w.watch[target] && NoSlash(e.name)
    requires forall i :: i in m ==> w.dirs[i] != w.dirs[target] + [e.name]
    ensures Tracks(HandleOne(w, e, nftw), m + Below(w.dirs, w.dirs[target] + [e.name]))
    ensures HandleOne(w, e, nftw).dirs == w.dirs && HandleOne(w, e, nftw).roots == w.roots
  {
    var dst := w.dirs[target] + [e.name];
    JoinSnoc(w.dirs[target], e.name);
    NotCached(w, dst, m);
    WatchSubtreeTracks(w, Join(dst), nftw, m);
    SubtreeIsDescendants(w.dirs, dst);
    assert HandleOne(w, e, nftw) == WatchSubtree(w, Join(dst), nftw);
  }

  lemma {:induction false} ZapRootAt(roots: seq<Option<string>>, s: string)
    requires forall i, j :: 0 <= i < j < |roots| && roots[i].Some? ==> roots[i] != roots[j]
    ensures forall i :: 0 <= i < |roots| ==>
              ZapRoot(roots, s)[i] == if roots[i] == Some(s) then None else roots[i]
  {
    if roots != [] && roots[0] != Some(s) {
      ZapRootAt(roots[1..], s);
      var r := ZapRoot(roots, s);
      forall i | 0 < i < |roots|
        ensures r[i] == if roots[i] == Some(s) then None else roots[i]
      {
        assert r[i] == ZapRoot(roots[1..], s)[i-1];
      }
    }
  }

  /** Ceasing to monitor one root leaves every other root alone. */
  lemma ZapRootElements(roots: seq<Option<string>>, s: string)
    requires forall i, j :: 0 <= i < j < |roots| && roots[i].Some? ==> roots[i] != roots[j]
    ensures forall t :: Some(t) in ZapRoot(roots, s) <==> Some(t) in roots && t != s
  {
    ZapRootAt(roots, s);
    var r := ZapRoot(roots, s);
    forall t | Some(t) in roots && t != s ensures Some(t) in r {
      var i :| 0 <= i < |roots| && roots[i] == Some(t);
      assert r[i] == Some(t);
    }
  }
}
