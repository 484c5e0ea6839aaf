/** A file system is unmounted: its directories vanish, and the kernel has dropped their
    watches before their events are read. */
module DirUnmount {
  import opened Paths
  import opened DirWorld

  /** One IN_UNMOUNT for each watch and any number of IN_IGNORED, in any order. */
  ghost predicate UnmountGroups(gs: seq<Group>, cache: map<int, string>) {
    && (forall g :: g in gs ==> g.One? && EventOk(g.e) && g.e.wd != -1)
    && (forall g :: g in gs ==> g.e.mask == {Ignored} || (g.e.mask == {Unmount} && g.e.wd in cache))
    && (forall j, k :: 0 <= j < k < |gs| && Unmount in gs[j].e.mask && Unmount in gs[k].e.mask ==>
          gs[j].e.wd != gs[k].e.wd)
  }

  ghost function Unmounted(gs: seq<Group>): set<int>
    requires forall g :: g in gs ==> g.One?
  {
    set g | g in gs && Unmount in g.e.mask :: g.e.wd
  }

  /** Exactly the directories named by the events leave the cache; nothing else changes. */
  lemma {:induction false} UnmountsHandled(w: World, gs: seq<Group>, nftw: Order)
    requires UnmountGroups(gs, w.cache)
    ensures AllOk(gs)
    ensures HandleAll(w, gs, nftw) == w.(cache := w.cache - Unmounted(gs))
  {
    if gs == [] {
      assert w.cache - {} == w.cache;
    } else {
      var n := |gs| - 1;
      var hs, g := gs[..n], gs[n];
      assert gs == hs + [g];
      UnmountsHandled(w, hs, nftw);
      if Unmount in g.e.mask {
        assert g.e.wd !in Unmounted(hs);
        assert Unmounted(gs) == Unmounted(hs) + {g.e.wd};
        assert (w.cache - Unmounted(hs)) - {g.e.wd} == w.cache - Unmounted(gs);
      } else {
        assert Unmounted(gs) == Unmounted(hs);
      }
    }
  }

  /** When all those events have been handled, the watches and the cache are again those of
      the directories that are left. */
  lemma UnmountTracks(w: World, m: set<nat>, gone: set<nat>, gs: seq<Group>, nftw: Order)
    requires Tracks(w, m) && gone <= m && UnmountGroups(gs, w.cache)
    requires Unmounted(gs) == set i | i in gone :: w.watch[i]
    ensures AllOk(gs)
    ensures Tracks(HandleAll(w.(dirs := w.dirs - gone, watch := w.watch - gone), gs, nftw), m - gone)
  {
    var w1 := w.(dirs := w.dirs - gone, watch := w.watch - gone);
    UnmountsHandled(w1, gs, nftw);
    var w2 := HandleAll(w1, gs, nftw);
    forall i | i in m - gone ensures w2.watch[i] !in Unmounted(gs) {
      assert w.watch[i] == w2.watch[i];
    }
    forall wd | wd in w2.cache ensures Held(w2.watch, wd) {
      var i :| i in w.watch && w.watch[i] == wd;
      assert i in w2.watch;
    }
  }
}
