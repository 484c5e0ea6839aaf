/** The event buffer: what read() delivers, and which events are consumed together. */
module EventBuffer {
  import opened Sequences
  import opened DirWorld

  const INOTIFY_READ_BUF_LEN := 100 * (16 + 256)

  function Size(e: Event): nat {
    16 + e.len
  }

  function TotalSize(es: seq<Event>): nat {
    if es == [] then 0 else Size(es[0]) + TotalSize(es[1..])
  }

  /** The group of events at the head of a buffer. */
  function Head(es: seq<Event>): Group
    requires es != []
  {
    if |es| > 1 && IsRename(es[0], es[1]) then Pair(es[0], es[1]) else One(es[0])
  }

  predicate AllEventsOk(es: seq<Event>) {
    forall e :: e in es ==> EventOk(e)
  }

  /** `bufSize` counts the bytes from the next event on. After a read that timed out it is
      one too small, because the -1 returned by read() has been added to it. */
  predicate BufferOk(es: seq<Event>, bufSize: int, firstTry: bool) {
    && es != [] && AllEventsOk(es)
    && (bufSize == TotalSize(es) || (|es| == 1 && !firstTry && bufSize == TotalSize(es) - 1))
  }

  lemma HeadSize(es: seq<Event>)
    requires es != []
    ensures Size(es[0]) <= TotalSize(es) && (Size(es[0]) == TotalSize(es) <==> |es| == 1)
    ensures |es| > 1 ==> TotalSize(es) >= Size(es[0]) + Size(es[1])
    ensures TotalSize([es[0]]) == Size(es[0])
    ensures |es| > 1 ==> TotalSize([es[0], es[1]]) == Size(es[0]) + Size(es[1])
  {
    assert [es[0]][1..] == [];
    if |es| > 1 {
      assert es[1..][0] == es[1];
      assert [es[0], es[1]][1..] == [es[1]];
      assert [es[1]][1..] == [];
    } else {
      assert es[1..] == [];
    }
  }

  // ---------------------------------------------------------------- grouping

  function FlattenGroups(gs: seq<Group>): seq<Event> {
    if gs == [] then [] else gs[0].Events() + FlattenGroups(gs[1..])
  }

  /** Each group is the head of everything from it onwards. */
  predicate Maximal(gs: seq<Group>, rest: seq<Event>) {
    gs == [] || (Head(gs[0].Events() + (FlattenGroups(gs[1..]) + rest)) == gs[0] && Maximal(gs[1..], rest))
  }

  lemma GroupUpHead(g: Group, tail: seq<Event>)
    requires Head(g.Events() + tail) == g
    ensures GroupUp(g.Events() + tail) == [g] + GroupUp(tail)
  {
    assert (g.Events() + tail)[|g.Events()|..] == tail;
  }

  lemma {:induction false} MaximalGroups(gs: seq<Group>, rest: seq<Event>)
    requires Maximal(gs, rest)
    ensures GroupUp(FlattenGroups(gs) + rest) == gs + GroupUp(rest)
  {
    if gs == [] {
      assert FlattenGroups(gs) + rest == rest;
      assert gs + GroupUp(rest) == GroupUp(rest);
    } else {
      var flat, es := FlattenGroups(gs[1..]), gs[0].Events();
      MaximalGroups(gs[1..], rest);
      GroupUpHead(gs[0], flat + rest);
      Associate(es, flat, rest);
      calc {
        GroupUp((es + flat) + rest);
        GroupUp(es + (flat + rest));
        [gs[0]] + (gs[1..] + GroupUp(rest));
        { Associate([gs[0]], gs[1..], GroupUp(rest)); }
        ([gs[0]] + gs[1..]) + GroupUp(rest);
      }
      assert [gs[0]] + gs[1..] == gs;
    }
  }

  lemma {:induction false} FlattenSnoc(gs: seq<Group>, g: Group)
    ensures FlattenGroups(gs + [g]) == FlattenGroups(gs) + g.Events()
  {
    if gs == [] {
      assert [g][1..] == [];
      assert gs + [g] == [g];
    } else {
      FlattenSnoc(gs[1..], g);
      assert (gs + [g])[1..] == gs[1..] + [g];
    }
  }

  lemma {:induction false} MaximalSnoc(gs: seq<Group>, g: Group, rest: seq<Event>)
    requires Maximal(gs, g.Events() + rest) && Head(g.Events() + rest) == g
    ensures Maximal(gs + [g], rest)
  {
    var hs := gs + [g];
    if gs == [] {
      assert hs[1..] == [] && hs[0] == g;
      assert FlattenGroups(hs[1..]) + rest == rest;
    } else {
      MaximalSnoc(gs[1..], g, rest);
      assert hs[1..] == gs[1..] + [g];
      FlattenSnoc(gs[1..], g);
      assert FlattenGroups(hs[1..]) + rest == FlattenGroups(gs[1..]) + (g.Events() + rest);
    }
  }

  /** More events behind a non-empty buffer do not change the groups in front of it. */
  lemma {:induction false} MaximalExtend(gs: seq<Group>, rest: seq<Event>, more: seq<Event>)
    requires Maximal(gs, rest) && rest != []
    ensures Maximal(gs, rest + more)
  {
    if gs != [] {
      MaximalExtend(gs[1..], rest, more);
      var es := gs[0].Events() + (FlattenGroups(gs[1..]) + rest);
      assert gs[0].Events() + (FlattenGroups(gs[1..]) + (rest + more)) == es + more;
      assert |es| > 1;
    }
  }

  /** Grouping loses nothing, keeps the order, and never separates the two events of a
      rename that stand next to each other. */
  lemma {:induction false} GroupUpFaithful(es: seq<Event>)
    ensures FlattenGroups(GroupUp(es)) == es
    ensures forall k :: 0 <= k < |GroupUp(es)| ==>
              GroupUp(es)[k].Pair? ==> IsRename(GroupUp(es)[k].from, GroupUp(es)[k].to)
    ensures forall k :: 0 <= k < |GroupUp(es)| - 1 && GroupUp(es)[k].One? ==>
              !IsRename(GroupUp(es)[k].e, GroupUp(es)[k+1].Events()[0])
  {
    if es != [] {
      var g := Head(es);
      var n := |g.Events()|;
      var gs := GroupUp(es);
      GroupUpFaithful(es[n..]);
      assert gs == [g] + GroupUp(es[n..]);
      assert gs[1..] == GroupUp(es[n..]);
      assert es == g.Events() + es[n..];
      forall k | 0 <= k < |gs| - 1 && gs[k].One? ensures !IsRename(gs[k].e, gs[k+1].Events()[0]) {
        if k == 0 {
          assert FlattenGroups(gs[1..])[0] == gs[1].Events()[0];
        } else {
          assert gs[k] == gs[1..][k-1] && gs[k+1] == gs[1..][k];
        }
      }
    }
  }

  function Departures(gs: seq<Group>): nat {
    if gs == [] then 0
    else Departures(gs[..|gs|-1]) + (if IsDeparture(gs[|gs|-1].Events()[0]) then 1 else 0)
  }

  // ---------------------------------------------------------------- reads

  /** The result of read() on the inotify descriptor; `Interrupted` is a timeout. */
  datatype Read = Got(events: seq<Event>) | Interrupted

  /** The first read delivers something, whole events are delivered, and a later read fits
      behind the one event that is still in the buffer. */
  ghost predicate ReadsOk(results: seq<Read>) {
    && results != [] && results[0].Got?
    && (forall k :: 0 <= k < |results| && results[k].Got? ==>
          results[k].events != [] && AllEventsOk(results[k].events)
          && TotalSize(results[k].events) <= INOTIFY_READ_BUF_LEN)
    && (forall k :: 0 < k < |results| && results[k-1].Got? && results[k].Got? ==>
          var prev := results[k-1].events;
          Size(prev[|prev|-1]) + TotalSize(results[k].events) <= INOTIFY_READ_BUF_LEN)
  }

  /** Everything delivered, in order. */
  function AllEvents(results: seq<Read>): seq<Event> {
    if results == [] then []
    else
      var last := results[|results|-1];
      AllEvents(results[..|results|-1]) + (if last.Got? then last.events else [])
  }

  /** The last event read is a "moved from" of a directory: its "moved to" may be next. */
  predicate EndsHanging(r: Read) {
    r.Got? && r.events != [] && IsDeparture(r.events[|r.events|-1])
  }

  /** How many of the reads are wanted: up to the first one that leaves nothing hanging. */
  function Needed(results: seq<Read>): (n: nat)
    requires results != []
    ensures 0 < n <= |results|
    ensures forall k :: 0 <= k < n - 1 ==> EndsHanging(results[k])
    ensures n == |results| || !EndsHanging(results[n-1])
  {
    if |results| == 1 || !EndsHanging(results[0]) then 1 else 1 + Needed(results[1..])
  }

  lemma AllEventsOne(results: seq<Read>)
    requires results != [] && results[0].Got?
    ensures AllEvents(results[..1]) == results[0].events
  {
    assert results[..1][..0] == [];
  }

  lemma AllEventsNext(results: seq<Read>, n: nat)
    requires n < |results|
    ensures AllEvents(results[..n+1])
         == AllEvents(results[..n]) + (if results[n].Got? then results[n].events else [])
  {
    assert results[..n+1][..n] == results[..n];
  }

  lemma {:induction false} TotalSizeSum(es: seq<Event>, fs: seq<Event>)
    ensures TotalSize(es + fs) == TotalSize(es) + TotalSize(fs)
  {
    if es == [] {
      assert es + fs == fs;
    } else {
      TotalSizeSum(es[1..], fs);
      assert (es + fs)[1..] == es[1..] + fs;
    }
  }

  // ---------------------------------------------------------------- the state of the loop

  /** What has been handled and what is still in the buffer make up what was read. */
  ghost predicate Progress(results: seq<Read>, used: nat, handled: seq<Group>, pending: seq<Event>) {
    && 0 < used <= |results|
    && FlattenGroups(handled) + pending == AllEvents(results[..used])
    && Maximal(handled, pending)
  }

  lemma ProgressStart(results: seq<Read>)
    requires ReadsOk(results)
    ensures Progress(results, 1, [], results[0].events)
  {
    AllEventsOne(results);
    assert FlattenGroups([]) + results[0].events == results[0].events;
  }

  lemma Consume(results: seq<Read>, used: nat, handled: seq<Group>, pending: seq<Event>)
    requires Progress(results, used, handled, pending) && pending != []
    ensures var g := Head(pending);
            var rest := pending[|g.Events()|..];
            && Progress(results, used, handled + [g], rest)
            && TotalSize(pending) == TotalSize(g.Events()) + TotalSize(rest)
            && Departures(handled + [g]) == Departures(handled) + (if IsDeparture(pending[0]) then 1 else 0)
  {
    var g := Head(pending);
    var rest := pending[|g.Events()|..];
    assert pending == g.Events() + rest;
    MaximalSnoc(handled, g, rest);
    FlattenSnoc(handled, g);
    assert (FlattenGroups(handled) + g.Events()) + rest == FlattenGroups(handled) + pending;
    TotalSizeSum(g.Events(), rest);
    assert (handled + [g])[..|handled|] == handled;
  }

  lemma Refill(results: seq<Read>, used: nat, handled: seq<Group>, pending: seq<Event>)
    requires Progress(results, used, handled, pending) && pending != [] && used < |results|
    ensures var more := if results[used].Got? then results[used].events else [];
            && Progress(results, used + 1, handled, pending + more)
            && TotalSize(pending + more) == TotalSize(pending) + TotalSize(more)
  {
    var more := if results[used].Got? then results[used].events else [];
    MaximalExtend(handled, pending, more);
    AllEventsNext(results, used);
    assert FlattenGroups(handled) + (pending + more) == (FlattenGroups(handled) + pending) + more;
    TotalSizeSum(pending, more);
  }

  lemma ProgressGroups(results: seq<Read>, used: nat, handled: seq<Group>, pending: seq<Event>)
    requires Progress(results, used, handled, pending)
    ensures handled <= GroupUp(AllEvents(results[..used]))
    ensures pending == [] ==> handled == GroupUp(AllEvents(results[..used]))
  {
    MaximalGroups(handled, pending);
  }

  /** The event in front of the buffer stays hanging until something is read behind it. */
  ghost predicate BufferState(results: seq<Read>, used: nat, pending: seq<Event>, avail: int, firstTry: bool) {
    && 0 < used <= |results|
    && (pending == [] ==> avail <= 0)
    && (pending != [] ==> 0 < avail <= INOTIFY_READ_BUF_LEN && BufferOk(pending, avail, firstTry))
    && (pending != [] && (firstTry || |pending| > 1) ==> LastRead(results[used-1], pending))
    && (pending != [] && !firstTry ==> IsDeparture(pending[0]))
  }

  ghost predicate LastRead(r: Read, pending: seq<Event>)
    requires pending != []
  {
    r.Got? && r.events != [] && pending[|pending|-1] == r.events[|r.events|-1]
  }

  /** Another read is made after one that ended hanging, and only then. */
  ghost predicate ReadsWanted(results: seq<Read>, used: nat, pending: seq<Event>, firstTry: bool, rebuilt: bool) {
    && 0 < used <= |results|
    && (forall k :: 0 <= k < used - 1 ==> EndsHanging(results[k]))
    && (|pending| == 1 && !firstTry && used < |results| ==> results[used-1].Interrupted?)
    && (pending == [] && !rebuilt && used < |results| ==> !EndsHanging(results[used-1]))
  }

  lemma WantedConsumed(results: seq<Read>, used: nat, pending: seq<Event>, avail: int, firstTry: bool, rebuilt: bool)
    requires BufferState(results, used, pending, avail, firstTry) && pending != []
    requires ReadsWanted(results, used, pending, firstTry, false)
    requires |pending| == 1 && firstTry && IsDeparture(pending[0]) ==> rebuilt
    ensures ReadsWanted(results, used, pending[|Head(pending).Events()|..], true, rebuilt)
  {
  }

  lemma WantedRefilled(results: seq<Read>, used: nat, pending: seq<Event>, avail: int)
    requires ReadsOk(results) && BufferState(results, used, pending, avail, true)
    requires |pending| == 1 && IsDeparture(pending[0]) && ReadsWanted(results, used, pending, true, false)
    ensures used == |results| ==> ReadsWanted(results, used, pending, false, false)
    ensures used < |results| && results[used].Interrupted? ==>
              ReadsWanted(results, used + 1, pending, false, false)
    ensures used < |results| && results[used].Got? ==>
              ReadsWanted(results, used + 1, pending + results[used].events, false, false)
  {
    assert EndsHanging(results[used-1]);
  }

  lemma WantedIsNeeded(results: seq<Read>, used: nat)
    requires 0 < used <= |results| && forall k :: 0 <= k < used - 1 ==> EndsHanging(results[k])
    ensures used <= Needed(results)
    ensures used == |results| || !EndsHanging(results[used-1]) ==> used == Needed(results)
  {
  }

  lemma StateStart(results: seq<Read>)
    requires ReadsOk(results)
    ensures BufferState(results, 1, results[0].events, TotalSize(results[0].events), true)
  {
    HeadSize(results[0].events);
  }

  lemma StateConsumed(results: seq<Read>, used: nat, pending: seq<Event>, avail: int, firstTry: bool)
    requires BufferState(results, used, pending, avail, firstTry) && pending != []
    ensures var n := |Head(pending).Events()|;
            BufferState(results, used, pending[n..], avail - TotalSize(pending[..n]), true)
  {
    var n := |Head(pending).Events()|;
    assert pending == pending[..n] + pending[n..];
    TotalSizeSum(pending[..n], pending[n..]);
    if pending[n..] != [] { HeadSize(pending[n..]); }
  }

  /** After a second read, successful or not, the hanging event is still in front. */
  lemma StateRefilled(results: seq<Read>, used: nat, pending: seq<Event>, avail: int)
    requires ReadsOk(results) && BufferState(results, used, pending, avail, true)
    requires |pending| == 1 && IsDeparture(pending[0])
    ensures used == |results| ==> BufferState(results, used, pending, avail - 1, false)
    ensures used < |results| && results[used].Interrupted? ==>
              BufferState(results, used + 1, pending, avail - 1, false)
    ensures used < |results| && results[used].Got? ==>
              BufferState(results, used + 1, pending + results[used].events,
                          avail + TotalSize(results[used].events), false)
  {
    HeadSize(pending);
    if used < |results| && results[used].Got? {
      TotalSizeSum(pending, results[used].events);
    }
  }
}
