/** The watch cache of `inotify_dtree.c` in its own form: a growable slot array searched
    linearly and rewritten in place, and the event handler that works on it. Every method
    is specified by the corresponding function of module DirWorld. */
module DirCache {
  import opened Options
  import opened Paths
  import opened DirWorld
  import opened DirOps
  import opened EventBuffer

  /** `struct watch`; `wd` is -1 in an unused slot. */
  datatype Watch = Watch(wd: int, path: string)

  const EMPTY_SLOT := Watch(-1, "")
  const ALLOC_INCR := 200

  ghost predicate SlotsOk(s: seq<Watch>) {
    && (forall j :: 0 <= j < |s| ==> s[j].wd > 0 || s[j] == EMPTY_SLOT)
    && (forall i, j :: 0 <= i < j < |s| && s[i].wd > 0 ==> s[i].wd != s[j].wd)
  }

  ghost predicate Slotted(s: seq<Watch>, wd: int) {
    exists j :: 0 <= j < |s| && s[j].wd == wd
  }

  /** `cache` is what the occupied slots say. */
  ghost predicate Matches(s: seq<Watch>, cache: map<int, string>) {
    && (forall j :: 0 <= j < |s| && s[j].wd > 0 ==> s[j].wd in cache && cache[s[j].wd] == s[j].path)
    && (forall wd :: wd in cache ==> wd > 0 && Slotted(s, wd))
  }

  lemma Fill(s: seq<Watch>, j: nat, wd: int, path: string, cache: map<int, string>)
    requires SlotsOk(s) && Matches(s, cache)
    requires j < |s| && s[j].wd == -1 && wd > 0 && wd !in cache
    ensures SlotsOk(s[j := Watch(wd, path)])
    ensures Matches(s[j := Watch(wd, path)], cache[wd := path])
  {
    var t := s[j := Watch(wd, path)];
    forall x | x in cache[wd := path] ensures x > 0 && Slotted(t, x) {
      if x != wd {
        assert Slotted(s, x);
        var k :| 0 <= k < |s| && s[k].wd == x;
        assert t[k].wd == x;
      } else {
        assert t[j].wd == x;
      }
    }
  }

  lemma Clear(s: seq<Watch>, j: nat, cache: map<int, string>)
    requires SlotsOk(s) && Matches(s, cache) && j < |s| && s[j].wd > 0
    ensures SlotsOk(s[j := EMPTY_SLOT])
    ensures Matches(s[j := EMPTY_SLOT], cache - {s[j].wd})
  {
    var t := s[j := EMPTY_SLOT];
    forall x | x in cache - {s[j].wd} ensures x > 0 && Slotted(t, x) {
      assert Slotted(s, x);
      var k :| 0 <= k < |s| && s[k].wd == x;
      assert t[k].wd == x;
    }
  }

  lemma Grow(s: seq<Watch>, t: seq<Watch>, cache: map<int, string>)
    requires SlotsOk(s) && Matches(s, cache)
    requires |s| <= |t| && forall j :: 0 <= j < |t| ==> t[j] == if j < |s| then s[j] else EMPTY_SLOT
    ensures SlotsOk(t) && Matches(t, cache)
  {
    forall x | x in cache ensures Slotted(t, x) {
      assert Slotted(s, x);
      var k :| 0 <= k < |s| && s[k].wd == x;
      assert t[k].wd == x;
    }
  }

  lemma Rewritten(s: seq<Watch>, t: seq<Watch>, full: string, newPrefix: string, cache: map<int, string>)
    requires SlotsOk(s) && Matches(s, cache) && |t| == |s| && full != ""
    requires forall j :: 0 <= j < |s| ==> t[j] == Watch(s[j].wd, Rewrite(full, newPrefix, s[j].path))
    ensures SlotsOk(t) && Matches(t, RewriteAll(cache, full, newPrefix))
  {
    forall j | 0 <= j < |t| ensures t[j].wd > 0 || t[j] == EMPTY_SLOT {
      assert t[j].wd == s[j].wd;
    }
    forall x | x in cache ensures Slotted(t, x) {
      assert Slotted(s, x);
      var k :| 0 <= k < |s| && s[k].wd == x;
      assert t[k].wd == x;
    }
  }

  lemma Updated<T>(s: seq<T>, j: nat, x: T)
    requires j < |s|
    ensures s[j := x] == if j == 0 then [x] + s[1..] else [s[0]] + s[1..][j-1 := x]
  {
  }

  lemma {:induction false} ZapRootFirst(roots: seq<Option<string>>, s: string, j: nat)
    requires j < |roots| && roots[j] == Some(s)
    requires forall k :: 0 <= k < j ==> roots[k] != Some(s)
    ensures ZapRoot(roots, s) == roots[j := None]
  {
    Updated(roots, j, None);
    if j > 0 { ZapRootFirst(roots[1..], s, j - 1); }
  }

  lemma ZapRootAbsent(roots: seq<Option<string>>, s: string)
    requires Some(s) !in roots
    ensures ZapRoot(roots, s) == roots
  {
  }

  lemma UnwatchOne(watch: map<nat, int>, gone: set<int>, wd: int)
    requires wd !in gone
    ensures Unwatch(Unwatch(watch, gone), {wd}) == Unwatch(watch, gone + {wd})
    ensures wd in Unwatch(watch, gone).Values <==> wd in watch.Values
  {
    if wd in watch.Values {
      var i :| i in watch && watch[i] == wd;
      assert Unwatch(watch, gone)[i] == wd;
    }
  }

  /** `zapped` holds the descriptors to remove that sit in the first `j` slots. */
  ghost predicate ZappedUpTo(s: seq<Watch>, cache: map<int, string>, path: string, zapped: set<int>, j: nat)
    requires j <= |s|
  {
    && SlotsOk(s) && Matches(s, cache)
    && zapped <= Doomed(cache, path)
    && (forall k :: 0 <= k < j && s[k].wd > 0 && Under(path, s[k].path) ==> s[k].wd in zapped)
    && (forall k :: j <= k < |s| ==> s[k].wd !in zapped)
  }

  /** The state of zapSubtree() when it has dealt with the first `j` slots of `s`; `t` is the
      array by now, and `w` the world. */
  ghost predicate Zapping(s: seq<Watch>, t: seq<Watch>, before: World, w: World, path: string, zapped: set<int>, j: nat) {
    && j <= |s| && |t| == |s|
    && ZappedUpTo(s, before.cache, path, zapped, j)
    && (forall k :: j <= k < |s| ==> t[k] == s[k])
    && zapped <= before.watch.Values
    && w == before.(cache := before.cache - zapped, watch := Unwatch(before.watch, zapped))
  }

  /** A slot to remove: its watch exists if and only if it did before. */
  lemma ZapStep(s: seq<Watch>, t: seq<Watch>, before: World, w: World, path: string, zapped: set<int>, j: nat)
    requires j < |s| && Zapping(s, t, before, w, path, zapped, j) && t[j].wd >= 0 && Under(path, t[j].path)
    ensures t[j] == s[j] && s[j].wd > 0 && s[j].wd !in zapped && s[j].wd in Doomed(before.cache, path)
    ensures s[j].wd in w.watch.Values <==> s[j].wd in before.watch.Values
    ensures s[j].wd in before.watch.Values ==>
              Zapping(s, t[j := EMPTY_SLOT], before,
                      w.(cache := w.cache - {s[j].wd}, watch := Unwatch(w.watch, {s[j].wd})),
                      path, zapped + {s[j].wd}, j + 1)
  {
    UnwatchOne(before.watch, zapped, s[j].wd);
    assert before.cache - (zapped + {s[j].wd}) == (before.cache - zapped) - {s[j].wd};
  }

  lemma ZapSkip(s: seq<Watch>, t: seq<Watch>, before: World, w: World, path: string, zapped: set<int>, j: nat)
    requires j < |s| && Zapping(s, t, before, w, path, zapped, j) && !(t[j].wd >= 0 && Under(path, t[j].path))
    ensures Zapping(s, t, before, w, path, zapped, j + 1)
  {
  }

  lemma ZapComplete(s: seq<Watch>, cache: map<int, string>, path: string, zapped: set<int>)
    requires ZappedUpTo(s, cache, path, zapped, |s|)
    ensures zapped == Doomed(cache, path)
  {
    forall wd | wd in Doomed(cache, path) ensures wd in zapped {
      assert Slotted(s, wd);
      var k :| 0 <= k < |s| && s[k].wd == wd;
    }
  }

  /** The number of roots that are no longer monitored. */
  function IgnoredIn(roots: seq<Option<string>>): nat {
    if roots == [] then 0 else (if roots[0].None? then 1 else 0) + IgnoredIn(roots[1..])
  }

  lemma {:induction false} IgnoredMore(roots: seq<Option<string>>, j: nat)
    requires j < |roots| && roots[j].Some?
    ensures IgnoredIn(roots[j := None]) == IgnoredIn(roots) + 1
  {
    if j > 0 {
      assert roots[j := None][1..] == roots[1..][j - 1 := None];
      IgnoredMore(roots[1..], j - 1);
    }
  }

  lemma {:induction false} AllIgnored(roots: seq<Option<string>>)
    ensures IgnoredIn(roots) <= |roots|
    ensures IgnoredIn(roots) == |roots| <==> forall k :: 0 <= k < |roots| ==> roots[k] == None
  {
    if roots != [] {
      AllIgnored(roots[1..]);
      assert forall k :: 0 < k < |roots| ==> roots[k] == roots[1..][k - 1];
    }
  }

  lemma {:induction false} NoneIgnored(roots: seq<string>)
    ensures IgnoredIn(seq(|roots|, k requires 0 <= k < |roots| => Some(roots[k]))) == 0
  {
    if roots != [] {
      NoneIgnored(roots[1..]);
      assert seq(|roots|, k requires 0 <= k < |roots| => Some(roots[k]))[1..]
          == seq(|roots[1..]|, k requires 0 <= k < |roots[1..]| => Some(roots[1..][k]));
    }
  }

  /** Room for one more: the first empty slot, or the first of 200 new ones if there is none;
      the slots there were are kept. */
  ghost predicate WithRoom(was: seq<Watch>, now: seq<Watch>, slot: nat) {
    && slot <= |was| && (forall j :: 0 <= j < slot ==> was[j].wd != -1)
    && if slot < |was| then now == was && was[slot] == EMPTY_SLOT
       else
         && |now| == |was| + ALLOC_INCR && now[..|was|] == was
         && forall j :: |was| <= j < |now| ==> now[j] == EMPTY_SLOT
  }

  /** realloc() for 200 more slots, which are then marked empty. */
  method Enlarged(slots: array<Watch>) returns (grown: array<Watch>)
    ensures fresh(grown) && grown.Length == slots.Length + ALLOC_INCR
    ensures forall k :: 0 <= k < |grown[..]| ==> grown[..][k] == if k < |slots[..]| then slots[..][k] else EMPTY_SLOT
    ensures grown[..][..slots.Length] == slots[..]
  {
    var n := slots.Length;
    grown := new Watch[n + ALLOC_INCR](_ => EMPTY_SLOT);
    forall k | 0 <= k < n { grown[k] := slots[k]; }
  }

  /** How zapRootDirPath() ends; after all but the second the program ends. */
  datatype Zapped = NotFound | RootZapped | LastZapped

  class DirMonitor {
    var wlCache: array<Watch>
    var rootDirPaths: seq<Option<string>>
    var ignoreRootDirs: nat
    ghost var cache: map<int, string>  // the contents of the occupied slots

    // The kernel's side: the tree, and the watches of the current inotify instance.
    var dirs: map<nat, Path>
    var watch: map<nat, int>
    var nextWd: int
    const nftw: Order

    ghost predicate Valid()
      reads this, wlCache
    {
      && SlotsOk(wlCache[..]) && Matches(wlCache[..], cache)
      && ignoreRootDirs == IgnoredIn(rootDirPaths)
      && 0 < nextWd && forall i :: i in watch ==> 0 < watch[i]
    }

    ghost function World(): World
      reads this
    {
      DirWorld.World(dirs, watch, nextWd, cache, rootDirPaths)
    }

    constructor (dirs: map<nat, Path>, roots: seq<string>, nftw: Order)
      ensures Valid() && fresh(wlCache)
      ensures World() == Reinit(DirWorld.World(dirs, map[], 1, map[], rootDirPaths), nftw)
      ensures rootDirPaths == seq(|roots|, k requires 0 <= k < |roots| => Some(roots[k]))
    {
      this.dirs, this.watch, this.nextWd, this.nftw := dirs, map[], 1, nftw;
      this.rootDirPaths := seq(|roots|, k requires 0 <= k < |roots| => Some(roots[k]));
      this.wlCache, this.cache := new Watch[0], map[];
      ignoreRootDirs := 0;
      new;
      NoneIgnored(roots);
      Reinitialize();
    }

    // ---------------------------------------------------------------- the slot array

    method FindWatch(wd: int) returns (slot: int)
      requires Valid() && wd != -1
      ensures -1 <= slot < wlCache.Length
      ensures slot >= 0 <==> wd in cache
      ensures slot >= 0 ==> wlCache[slot].wd == wd && wlCache[slot].path == cache[wd]
    {
      var j := 0;
      while j < wlCache.Length
        invariant 0 <= j <= wlCache.Length
        invariant forall k :: 0 <= k < j ==> wlCache[k].wd != wd
      {
        if wlCache[j].wd == wd {
          assert wlCache[..][j].wd == wd;
          return j;
        }
        j := j + 1;
      }
      assert !Slotted(wlCache[..], wd);
      return -1;
    }

    method PathnameToCacheSlot(pathname: string) returns (slot: int)
      requires Valid()
      ensures -1 <= slot < wlCache.Length
      ensures slot >= 0 <==> pathname in cache.Values
      ensures slot >= 0 ==> wlCache[slot].wd > 0 && wlCache[slot].path == pathname
    {
      var j := 0;
      while j < wlCache.Length
        invariant 0 <= j <= wlCache.Length
        invariant forall k :: 0 <= k < j ==> !(wlCache[k].wd >= 0 && wlCache[k].path == pathname)
      {
        if wlCache[j].wd >= 0 && wlCache[j].path == pathname {
          assert wlCache[..][j].wd in cache;
          return j;
        }
        j := j + 1;
      }
      forall wd | wd in cache ensures cache[wd] != pathname {
        assert Slotted(wlCache[..], wd);
      }
      return -1;
    }

    method MarkCacheSlotEmpty(slot: nat)
      requires Valid() && slot < wlCache.Length && wlCache[slot].wd > 0
      modifies this`cache, wlCache
      ensures Valid() && wlCache[..] == old(wlCache[..])[slot := EMPTY_SLOT]
      ensures cache == old(cache) - {old(wlCache[slot].wd)}
    {
      Clear(wlCache[..], slot, cache);
      cache := cache - {wlCache[slot].wd};
      wlCache[slot] := EMPTY_SLOT;
      assert wlCache[..] == old(wlCache[..])[slot := EMPTY_SLOT];
    }

    method FindEmptyCacheSlot() returns (slot: nat)
      requires Valid()
      modifies this`wlCache
      ensures Valid()
      ensures wlCache == old(wlCache) || fresh(wlCache)
      ensures slot < wlCache.Length && wlCache[slot] == EMPTY_SLOT
      ensures WithRoom(old(wlCache[..]), wlCache[..], slot)
    {
      var j := 0;
      while j < wlCache.Length
        invariant 0 <= j <= wlCache.Length
        invariant forall k :: 0 <= k < j ==> wlCache[..][k].wd != -1
      {
        if wlCache[j].wd == -1 { return j; }
        j := j + 1;
      }
      ghost var s := wlCache[..];
      var grown := Enlarged(wlCache);
      Grow(s, grown[..], cache);
      wlCache := grown;
      return j;
    }

    method AddWatchToCache(wd: int, pathname: string) returns (slot: nat)
      requires Valid() && wd > 0 && wd !in cache
      modifies this`wlCache, this`cache, wlCache
      ensures Valid() && cache == old(cache)[wd := pathname]
      ensures wlCache == old(wlCache) || fresh(wlCache)
      ensures slot < wlCache.Length && wlCache[slot] == Watch(wd, pathname)
      ensures WithRoom(old(wlCache[..]), wlCache[..][slot := EMPTY_SLOT], slot)
    {
      slot := FindEmptyCacheSlot();
      Fill(wlCache[..], slot, wd, pathname, cache);
      cache := cache[wd := pathname];
      ghost var before := wlCache[..];
      wlCache[slot] := Watch(wd, pathname);
      assert wlCache[..] == before[slot := Watch(wd, pathname)];
      assert wlCache[..][slot := EMPTY_SLOT] == before;
    }

    // ---------------------------------------------------------------- kernel calls

    /** Some process changes the directory tree. */
    method FileSystemChange(op: Op)
      requires Valid() && (op.Mkdir? ==> op.parent in dirs)
      requires op.Rename? ==> op.ino in dirs && op.target in dirs
      requires op.Burst? ==> forall i :: i in op.watch ==> 0 < op.watch[i]
      modifies this`dirs, this`watch
      ensures Valid() && World() == FsStep(old(World()), op)
    {
      match op
      case Mkdir(parent, name, ino) => dirs := dirs[ino := dirs[parent] + [name]];
      case Rmdir(ino) => dirs, watch := dirs - {ino}, watch - {ino};
      case Rename(ino, target, name, _) => dirs := GraftAll(dirs, dirs[ino], dirs[target] + [name]);
      case FileChange(_, _, _) =>
      case Burst(d, w) => dirs, watch := d, w;
    }

    method InotifyAddWatch(i: nat) returns (wd: int)
      requires Valid() && i in dirs
      modifies this`watch, this`nextWd
      ensures Valid() && (wd, World()) == AddWatch(old(World()), i) && wd > 0
    {
      if i in watch { return watch[i]; }
      wd := nextWd;
      watch, nextWd := watch[i := wd], nextWd + 1;
    }

    /** Fails when the descriptor names no watch. */
    method InotifyRmWatch(wd: int) returns (r: int)
      requires Valid()
      modifies this`watch
      ensures Valid() && r == (if wd in old(watch).Values then 0 else -1)
      ensures watch == Unwatch(old(watch), {wd})
    {
      r := if wd in watch.Values then 0 else -1;
      watch := Unwatch(watch, {wd});
    }

    // ---------------------------------------------------------------- watching subtrees

    method TraverseTree(i: nat)
      requires Valid()
      modifies this, wlCache
      ensures Valid() && World() == Traverse(old(World()), i)
      ensures wlCache == old(wlCache) || fresh(wlCache)
    {
      if i !in dirs { return; }
      var wd := InotifyAddWatch(i);
      var slot := FindWatch(wd);
      if slot >= 0 { return; }
      slot := AddWatchToCache(wd, Join(dirs[i]));
    }

    method WatchSubtree(path: string)
      requires Valid()
      modifies this, wlCache
      ensures Valid() && World() == DirWorld.WatchSubtree(old(World()), path, nftw)
      ensures wlCache == old(wlCache) || fresh(wlCache)
    {
      var found := nftw(set i | i in dirs && Under(path, Join(dirs[i])));
      var k := 0;
      while k < |found|
        invariant 0 <= k <= |found| && Valid()
        invariant wlCache == old(wlCache) || fresh(wlCache)
        invariant World() == TraverseAll(old(World()), found[..k])
      {
        assert found[..k+1][..k] == found[..k];
        TraverseTree(found[k]);
        k := k + 1;
      }
      assert found[..k] == found;
    }

    // ---------------------------------------------------------------- renames and removals

    /** Every cached path in the renamed subtree is rewritten in place; descriptors and
        slots stay where they are. */
    method RewriteCachedPaths(oldPathPrefix: string, oldName: string, newPathPrefix: string, newName: string)
      requires Valid()
      modifies this`cache, wlCache
      ensures Valid()
      ensures cache == RewriteAll(old(cache), oldPathPrefix + "/" + oldName, newPathPrefix + "/" + newName)
    {
      var fullPath := oldPathPrefix + "/" + oldName;
      var newPrefix := newPathPrefix + "/" + newName;
      var len := |fullPath|;
      var j := 0;
      while j < wlCache.Length
        invariant 0 <= j <= wlCache.Length
        invariant cache == old(cache)
        invariant forall k :: j <= k < wlCache.Length ==> wlCache[k] == old(wlCache[k])
        invariant forall k :: 0 <= k < j ==>
          wlCache[k] == Watch(old(wlCache[k]).wd, Rewrite(fullPath, newPrefix, old(wlCache[k]).path))
      {
        var path := wlCache[j].path;
        if Under(fullPath, path) {
          wlCache[j] := Watch(wlCache[j].wd, newPrefix + path[len..]);
        }
        j := j + 1;
      }
      ghost var s, t := old(wlCache[..]), wlCache[..];
      assert forall k :: 0 <= k < |s| ==> t[k] == Watch(s[k].wd, Rewrite(fullPath, newPrefix, s[k].path));
      Rewritten(s, t, fullPath, newPrefix, cache);
      cache := RewriteAll(cache, fullPath, newPrefix);
    }

    /** One turn of the loop of zapSubtree(): 1 for a slot removed, 0 for one left alone. */
    method ZapNext(slot: nat, path: string, ghost s: seq<Watch>, ghost before: World, ghost zapped: set<int>)
      returns (r: int, ghost zapped': set<int>)
      requires Valid() && slot < wlCache.Length && Zapping(s, wlCache[..], before, World(), path, zapped, slot)
      modifies this`watch, this`cache, wlCache
      ensures Valid() && -1 <= r <= 1
      ensures r == -1 ==> !(Doomed(before.cache, path) <= before.watch.Values)
      ensures r != -1 ==>
                Zapping(s, wlCache[..], before, World(), path, zapped', slot + 1) && |zapped'| == |zapped| + r
    {
      r, zapped' := 0, zapped;
      ghost var w, t := World(), wlCache[..];
      if wlCache[slot].wd >= 0 && Under(path, wlCache[slot].path) {
        ZapStep(s, t, before, w, path, zapped, slot);
        r := InotifyRmWatch(wlCache[slot].wd);
        if r == -1 { return; }
        MarkCacheSlotEmpty(slot);
        r, zapped' := 1, zapped + {s[slot].wd};
      } else {
        ZapSkip(s, t, before, w, path, zapped, slot);
      }
    }

    /** Removes the watches and the cache entries of `path` and everything below, or gives
        up with -1 at the first watch the kernel does not know. */
    method ZapSubtree(path: string) returns (cnt: int)
      requires Valid()
      modifies this`watch, this`cache, wlCache
      ensures Valid()
      ensures cnt == -1 <==> !(Doomed(old(cache), path) <= old(World()).watch.Values)
      ensures cnt != -1 ==> World() == DirWorld.ZapSubtree(old(World()), path, nftw)
      ensures cnt != -1 ==> cnt == |Doomed(old(cache), path)|
    {
      ghost var s, before, zapped: set<int> := wlCache[..], World(), {};
      cnt := 0;
      var j := 0;
      assert Unwatch(watch, {}) == watch;
      while j < wlCache.Length
        invariant 0 <= j <= wlCache.Length && Valid() && cnt == |zapped|
        invariant Zapping(s, wlCache[..], before, World(), path, zapped, j)
      {
        var r;
        r, zapped := ZapNext(j, path, s, before, zapped);
        if r == -1 { return -1; }
        cnt := cnt + r;
        j := j + 1;
      }
      ZapComplete(s, before.cache, path, zapped);
    }

    // ---------------------------------------------------------------- rebuilding

    /** One turn of the loop of reinitialize(). */
    method WatchRoot(j: nat, ghost w0: World)
      requires Valid() && j < |rootDirPaths| && w0.roots == rootDirPaths && World() == WatchRoots(w0, j, nftw)
      modifies this, wlCache
      ensures Valid() && World() == WatchRoots(w0, j + 1, nftw)
      ensures wlCache == old(wlCache) || fresh(wlCache)
    {
      if rootDirPaths[j].Some? {
        TraverseAllFrame(World(), nftw(Subtree(dirs, rootDirPaths[j].value)));
        WatchSubtree(rootDirPaths[j].value);
      }
    }

    method Reinitialize()
      requires Valid()
      modifies this, wlCache
      ensures Valid() && World() == Reinit(old(World()), nftw)
      ensures fresh(wlCache)
    {
      watch, nextWd := map[], 1;
      wlCache, cache := new Watch[0], map[];
      ghost var w0 := World();
      var j := 0;
      while j < |rootDirPaths|
        invariant 0 <= j <= |rootDirPaths| && Valid() && fresh(wlCache)
        invariant rootDirPaths == old(rootDirPaths)
        invariant World() == WatchRoots(w0, j, nftw)
      {
        WatchRoot(j, w0);
        j := j + 1;
      }
    }

    method FindRootDirPath(path: string) returns (r: int)
      ensures -1 <= r < |rootDirPaths|
      ensures r == -1 <==> !IsRoot(rootDirPaths, path)
      ensures r >= 0 ==> rootDirPaths[r] == Some(path)
      ensures r >= 0 ==> ZapRoot(rootDirPaths, path) == rootDirPaths[r := None]
    {
      var j := 0;
      while j < |rootDirPaths|
        invariant 0 <= j <= |rootDirPaths|
        invariant forall k :: 0 <= k < j ==> rootDirPaths[k] != Some(path)
      {
        if rootDirPaths[j] == Some(path) {
          ZapRootFirst(rootDirPaths, path, j);
          return j;
        }
        j := j + 1;
      }
      return -1;
    }

    /** Stops monitoring the root `path`. The program ends when the pathname is not that of a
        root, and when no root is left. */
    method ZapRootDirPath(path: string) returns (r: Zapped)
      requires Valid()
      modifies this`rootDirPaths, this`ignoreRootDirs
      ensures Valid() && World() == old(World()).(roots := ZapRoot(old(rootDirPaths), path))
      ensures r == NotFound <==> !IsRoot(old(rootDirPaths), path)
      ensures r == LastZapped <==>
                IsRoot(old(rootDirPaths), path) && forall k :: 0 <= k < |rootDirPaths| ==> rootDirPaths[k] == None
    {
      var slot := FindRootDirPath(path);
      if slot == -1 {
        ZapRootAbsent(rootDirPaths, path);
        return NotFound;
      }
      IgnoredMore(rootDirPaths, slot);
      rootDirPaths := rootDirPaths[slot := None];
      AllIgnored(rootDirPaths);
      ignoreRootDirs := ignoreRootDirs + 1;
      return if ignoreRootDirs == |rootDirPaths| then LastZapped else RootZapped;
    }

    // ---------------------------------------------------------------- handling events

    method HandleArrival(e: Event, slot: nat)
      requires Valid() && EventOk(e) && IsArrival(e)
      requires slot < wlCache.Length && wlCache[slot].wd == e.wd && e.wd > 0
      modifies this, wlCache
      ensures Valid() && World() == HandleOne(old(World()), e, nftw)
      ensures wlCache == old(wlCache) || fresh(wlCache)
    {
      assert wlCache[..][slot].wd == e.wd;
      var fullPath := wlCache[slot].path + "/" + e.name;
      var found := PathnameToCacheSlot(fullPath);
      if found < 0 { WatchSubtree(fullPath); }
    }

    method HandleMovedOut(path: string) returns (rebuilt: bool)
      requires Valid()
      modifies this, wlCache
      ensures Valid() && World() == DirWorld.ZapSubtree(old(World()), path, nftw)
      ensures rebuilt == !(Doomed(old(cache), path) <= old(World()).watch.Values)
      ensures wlCache == old(wlCache) || fresh(wlCache)
    {
      var cnt := ZapSubtree(path);
      rebuilt := cnt == -1;
      if rebuilt { Reinitialize(); }
    }

    method HandleDeleted(slot: nat)
      requires Valid() && slot < wlCache.Length && wlCache[slot].wd > 0
      modifies this`cache, this`rootDirPaths, this`ignoreRootDirs, wlCache
      ensures Valid()
      ensures World() == old(World()).(roots := ZapRoot(old(rootDirPaths), old(wlCache[slot].path)),
                                       cache := old(cache) - {old(wlCache[slot].wd)})
    {
      var root := FindRootDirPath(wlCache[slot].path);
      if root >= 0 {
        var _ := ZapRootDirPath(wlCache[slot].path);
      } else {
        ZapRootAbsent(rootDirPaths, wlCache[slot].path);
      }
      MarkCacheSlotEmpty(slot);
    }

    /** A watched directory was moved; that matters only if it is a root. */
    method HandleMoved(slot: nat) returns (rebuilt: bool)
      requires Valid() && slot < wlCache.Length && wlCache[slot].wd > 0
      modifies this, wlCache
      ensures Valid() && (wlCache == old(wlCache) || fresh(wlCache))
      ensures var w, path := old(World()), old(wlCache[slot].path);
              && World() == (if IsRoot(w.roots, path)
                             then DirWorld.ZapSubtree(w.(roots := ZapRoot(w.roots, path)), path, nftw) else w)
              && rebuilt == (IsRoot(w.roots, path) && !(Doomed(w.cache, path) <= w.watch.Values))
    {
      rebuilt := false;
      var root := FindRootDirPath(wlCache[slot].path);
      if root >= 0 {
        var _ := ZapRootDirPath(wlCache[slot].path);
        rebuilt := HandleMovedOut(wlCache[slot].path);
      }
    }

    method HandleAlone(e: Event, slot: int) returns (rebuilt: bool)
      requires Valid() && EventOk(e) && !Lost(World(), e)
      requires e.wd != -1 && Ignored !in e.mask ==>
                 0 <= slot < wlCache.Length && wlCache[slot].wd == e.wd
      modifies this, wlCache
      ensures Valid() && World() == HandleOne(old(World()), e, nftw)
      ensures rebuilt == Rebuilds(old(World()), One(e))
      ensures wlCache == old(wlCache) || fresh(wlCache)
    {
      assert 0 <= slot < wlCache.Length ==> wlCache[..][slot] == wlCache[slot];
      rebuilt := false;
      if IsArrival(e) {
        HandleArrival(e, slot);
      } else if DeleteSelf in e.mask {
        HandleDeleted(slot);
      } else if IsDeparture(e) {
        rebuilt := HandleMovedOut(wlCache[slot].path + "/" + e.name);
      } else if QOverflow in e.mask {
        Reinitialize();
        rebuilt := true;
      } else if Unmount in e.mask {
        MarkCacheSlotEmpty(slot);
      } else if MoveSelf in e.mask {
        rebuilt := HandleMoved(slot);
      }
    }

    method HandleTogether(from: Event, slot: nat, to: Event) returns (rebuilt: bool)
      requires Valid() && EventOk(from) && EventOk(to) && IsRename(from, to) && !Lost(World(), from)
      requires slot < wlCache.Length && wlCache[slot].wd == from.wd && from.wd > 0
      modifies this, wlCache
      ensures Valid() && World() == HandlePair(old(World()), from, to, nftw)
      ensures rebuilt == Rebuilds(old(World()), Pair(from, to))
      ensures wlCache == old(wlCache) || fresh(wlCache)
    {
      assert wlCache[..][slot] == wlCache[slot];
      var nextSlot := FindWatch(to.wd);
      rebuilt := nextSlot == -1;
      if rebuilt {
        Reinitialize();
      } else {
        RewriteCachedPaths(wlCache[slot].path, from.name, wlCache[nextSlot].path, to.name);
      }
    }

    /** The slot of the event's directory; -1 if it is not cached, or if the event has none. */
    method EventSlot(ev: Event) returns (slot: int)
      requires Valid() && EventOk(ev)
      ensures slot == -1 || (0 <= slot < wlCache.Length && wlCache[slot].wd == ev.wd)
      ensures slot == -1 <==> Lost(World(), ev) || ev.wd == -1 || Ignored in ev.mask
    {
      slot := -1;
      if ev.wd != -1 && Ignored !in ev.mask {
        slot := FindWatch(ev.wd);
      }
    }

    /** processNextInotifyEvent(): consumes one event, or both events of a rename, from
        the head of the buffer and returns their size; returns -1, having done nothing, if
        a "moved from" event is the last in the buffer and this is the first attempt. */
    method ProcessNextInotifyEvent(buf: seq<Event>, bufSize: int, firstTry: bool)
      returns (evLen: int, rebuilt: bool)
      requires Valid() && BufferOk(buf, bufSize, firstTry)
      modifies this, wlCache
      ensures Valid() && (wlCache == old(wlCache) || fresh(wlCache))
      ensures evLen == -1 <==> |buf| == 1 && firstTry && IsDeparture(buf[0]) && !Lost(old(World()), buf[0])
      ensures evLen == -1 ==> World() == old(World())
      ensures evLen != -1 ==> World() == Handle(old(World()), Head(buf), nftw)
      ensures evLen != -1 ==> rebuilt == Rebuilds(old(World()), Head(buf))
      ensures evLen != -1 ==>
                evLen == if rebuilt then INOTIFY_READ_BUF_LEN else TotalSize(Head(buf).Events())
    {
      var ev := buf[0];
      HeadCases(buf, bufSize, firstTry);
      var slot := EventSlot(ev);
      if slot == -1 && ev.wd != -1 && Ignored !in ev.mask {
        Reinitialize();
        return INOTIFY_READ_BUF_LEN, true;
      }
      evLen := Size(ev);
      if IsDeparture(ev) && evLen < bufSize && MovedTo in buf[1].mask && buf[1].cookie == ev.cookie {
        rebuilt := HandleTogether(ev, slot, buf[1]);
        evLen := evLen + Size(buf[1]);
      } else if IsDeparture(ev) && evLen >= bufSize && firstTry {
        return -1, false;
      } else {
        rebuilt := HandleAlone(ev, slot);
      }
      if rebuilt { evLen := INOTIFY_READ_BUF_LEN; }
    }

    /** processInotifyEvents(): `results` are the results of the read() calls, a timed-out
        one being `Interrupted`. Reports how many were used and which groups of
        events were handled. */
    method ProcessInotifyEvents(results: seq<Read>)
      returns (used: nat, handled: seq<Group>, rebuilt: bool)
      requires Valid() && ReadsOk(results)
      modifies this, wlCache
      ensures Valid() && (wlCache == old(wlCache) || fresh(wlCache))
      ensures 0 < used <= |results|
      ensures AllOk(handled) && World() == HandleAll(old(World()), handled, nftw)
      ensures handled <= GroupUp(AllEvents(results[..used]))
      ensures !rebuilt ==> handled == GroupUp(AllEvents(results[..used]))
      ensures rebuilt == LastRebuilds(old(World()), handled, nftw)
      ensures used - 1 <= Departures(handled)
      ensures used <= Needed(results) && (!rebuilt ==> used == Needed(results))
      ensures rebuilt && OrderOk(nftw) && TreeOk(old(World()).dirs) ==> Mirrors(World())
    {
      used, handled, rebuilt := 1, [], false;
      var firstTry := true;
      var pending := results[0].events;
      var avail: int := TotalSize(pending);
      LoopStart(World(), results, nftw);
      while avail > 0
        invariant Valid() && (wlCache == old(wlCache) || fresh(wlCache))
        invariant LoopInv(old(World()), World(), nftw, results, used, handled, pending, avail, firstTry, rebuilt)
        decreases |results| - used, |pending|, firstTry
      {
        var g := Head(pending);
        ghost var w := World();
        var evLen, b := ProcessNextInotifyEvent(pending, avail, firstTry);
        if evLen > 0 {
          LoopConsumed(old(World()), w, nftw, results, used, handled, pending, avail, firstTry, evLen);
          handled, rebuilt := handled + [g], b;
          avail, firstTry := avail - evLen, true;
          pending := pending[|g.Events()|..];
        } else {
          firstTry := false;
          used, pending, avail := ReadMore(results, used, pending, avail, old(World()), w, nftw, handled);
        }
      }
      LoopDone(old(World()), World(), nftw, results, used, handled, pending, avail, firstTry, rebuilt);
    }
  }

  /** What the sizes tell about the head of the buffer. */
  lemma HeadCases(buf: seq<Event>, bufSize: int, firstTry: bool)
    requires BufferOk(buf, bufSize, firstTry)
    ensures EventOk(buf[0]) && (|buf| > 1 ==> EventOk(buf[1]))
    ensures Size(buf[0]) < bufSize <==> |buf| > 1
    ensures var g := Head(buf);
            TotalSize(g.Events()) == Size(buf[0]) + if g.Pair? then Size(buf[1]) else 0
  {
    assert buf[0] in buf && (|buf| > 1 ==> buf[1] in buf);
    HeadSize(buf);
  }

  ghost predicate LoopInv(w0: World, w: World, nftw: Order, results: seq<Read>, used: nat, handled: seq<Group>,
                          pending: seq<Event>, avail: int, firstTry: bool, rebuilt: bool)
  {
    && AllOk(handled) && w == HandleAll(w0, handled, nftw)
    && Progress(results, used, handled, pending)
    && RetriesOk(used, handled, pending, firstTry, rebuilt)
    && ReadsWanted(results, used, pending, firstTry, rebuilt)
    && rebuilt == LastRebuilds(w0, handled, nftw)
    && (rebuilt ==> avail <= 0)
    && (!rebuilt ==> BufferState(results, used, pending, avail, firstTry))
    && (!rebuilt && pending != [] && !firstTry ==> !Lost(w, pending[0]))
  }

  lemma LoopStart(w0: World, results: seq<Read>, nftw: Order)
    requires ReadsOk(results)
    ensures LoopInv(w0, w0, nftw, results, 1, [], results[0].events, TotalSize(results[0].events), true, false)
  {
    ProgressStart(results);
    StateStart(results);
  }

  lemma LoopConsumed(w0: World, w: World, nftw: Order, results: seq<Read>, used: nat, handled: seq<Group>,
                     pending: seq<Event>, avail: int, firstTry: bool, evLen: int)
    requires LoopInv(w0, w, nftw, results, used, handled, pending, avail, firstTry, false) && avail > 0
    requires Head(pending).Ok()
    requires |pending| == 1 && firstTry && IsDeparture(pending[0]) ==> Lost(w, pending[0])
    requires evLen == if Rebuilds(w, Head(pending)) then INOTIFY_READ_BUF_LEN
                      else TotalSize(Head(pending).Events())
    ensures var g := Head(pending);
            LoopInv(w0, Handle(w, g, nftw), nftw, results, used, handled + [g], pending[|g.Events()|..],
                    avail - evLen, true, Rebuilds(w, g))
  {
    var g := Head(pending);
    Consume(results, used, handled, pending);
    StateConsumed(results, used, pending, avail, firstTry);
    WantedConsumed(results, used, pending, avail, firstTry, Rebuilds(w, g));
    assert pending[..|g.Events()|] == g.Events();
    HandledOneMore(w0, handled, g, nftw);
  }

  lemma LoopRefilled(w0: World, w: World, nftw: Order, results: seq<Read>, used: nat, handled: seq<Group>,
                     pending: seq<Event>, avail: int)
    requires ReadsOk(results) && |pending| == 1 && IsDeparture(pending[0]) && !Lost(w, pending[0])
    requires LoopInv(w0, w, nftw, results, used, handled, pending, avail, true, false)
    ensures used == |results| ==>
              LoopInv(w0, w, nftw, results, used, handled, pending, avail - 1, false, false)
    ensures used < |results| && results[used].Interrupted? ==>
              LoopInv(w0, w, nftw, results, used + 1, handled, pending, avail - 1, false, false)
    ensures used < |results| && results[used].Got? ==>
              LoopInv(w0, w, nftw, results, used + 1, handled, pending + results[used].events,
                      avail + TotalSize(results[used].events), false, false)
  {
    StateRefilled(results, used, pending, avail);
    WantedRefilled(results, used, pending, avail);
    if used < |results| {
      Refill(results, used, handled, pending);
      assert pending + [] == pending;
    }
  }

  /** Every extra read belongs to one hanging "moved from" event. */
  ghost predicate RetriesOk(used: nat, handled: seq<Group>, pending: seq<Event>, firstTry: bool, rebuilt: bool) {
    used - 1 <= Departures(handled) + (if pending != [] && !firstTry && !rebuilt then 1 else 0)
  }

  /** The last of the groups handled made the handler rebuild the cache. */
  ghost predicate LastRebuilds(w: World, gs: seq<Group>, nftw: Order)
    requires AllOk(gs)
  {
    gs != [] && Rebuilds(HandleAll(w, gs[..|gs|-1], nftw), gs[|gs|-1])
  }

  lemma LoopDone(w0: World, w: World, nftw: Order, results: seq<Read>, used: nat, handled: seq<Group>,
                 pending: seq<Event>, avail: int, firstTry: bool, rebuilt: bool)
    requires LoopInv(w0, w, nftw, results, used, handled, pending, avail, firstTry, rebuilt) && avail <= 0
    ensures 0 < used <= |results| && AllOk(handled) && w == HandleAll(w0, handled, nftw)
    ensures handled <= GroupUp(AllEvents(results[..used]))
    ensures !rebuilt ==> handled == GroupUp(AllEvents(results[..used]))
    ensures rebuilt == LastRebuilds(w0, handled, nftw)
    ensures used - 1 <= Departures(handled)
    ensures used <= Needed(results) && (!rebuilt ==> used == Needed(results))
    ensures rebuilt && OrderOk(nftw) && TreeOk(w0.dirs) ==> Mirrors(w)
  {
    ProgressGroups(results, used, handled, pending);
    WantedIsNeeded(results, used);
    LastRebuildMirrors(w0, handled, nftw);
  }

  lemma LastRebuildMirrors(w0: World, handled: seq<Group>, nftw: Order)
    requires AllOk(handled)
    ensures LastRebuilds(w0, handled, nftw) && OrderOk(nftw) && TreeOk(w0.dirs) ==>
              Mirrors(HandleAll(w0, handled, nftw))
  {
    if LastRebuilds(w0, handled, nftw) && OrderOk(nftw) && TreeOk(w0.dirs) {
      var n := |handled| - 1;
      HandleAllKeepsDirs(w0, handled[..n], nftw);
      RebuildMirrors(HandleAll(w0, handled[..n], nftw), handled[n], nftw);
    }
  }

  /** A "moved from" event is left hanging: read once more, with a timeout. A read that timed
      out is added to the count all the same. */
  method ReadMore(results: seq<Read>, used: nat, pending: seq<Event>, avail: int, ghost w0: World, ghost w: World,
                  ghost nftw: Order, ghost handled: seq<Group>)
    returns (used': nat, pending': seq<Event>, avail': int)
    requires ReadsOk(results) && |pending| == 1 && IsDeparture(pending[0]) && !Lost(w, pending[0])
    requires LoopInv(w0, w, nftw, results, used, handled, pending, avail, true, false)
    ensures LoopInv(w0, w, nftw, results, used', handled, pending', avail', false, false)
    ensures used <= used' <= used + 1 && used' <= |results|
    ensures used' == used ==> pending' == pending
  {
    LoopRefilled(w0, w, nftw, results, used, handled, pending, avail);
    used', pending' := used, pending;
    var nr: int := -1;
    if used < |results| {
      if results[used].Got? {
        pending' := pending + results[used].events;
        nr := TotalSize(results[used].events);
      }
      used' := used + 1;
    }
    avail' := avail + nr;
  }

  lemma HandledOneMore(w: World, gs: seq<Group>, g: Group, nftw: Order)
    requires AllOk(gs) && g.Ok()
    ensures AllOk(gs + [g])
    ensures LastRebuilds(w, gs + [g], nftw) == Rebuilds(HandleAll(w, gs, nftw), g)
    ensures HandleAll(w, gs + [g], nftw) == Handle(HandleAll(w, gs, nftw), g, nftw)
  {
    assert (gs + [g])[..|gs|] == gs;
  }
}
