/** `mq_notify_via_thread.c` as a transition system: any number of notification threads, and
    senders that run at any time. */
module MqThread {
  // The kernel rule is that of mq_notify() in chapter 3 of the System Interfaces volume of
  // IEEE Std 1003.1-2017: a notification is made when a message arrives at an empty queue,
  // and it removes the registration.

  /** Where a thread (or main) stands: before mq_notify(), in the drain loop, or past it. */
  datatype Phase = Registering | Draining | Done

  /** `threads[0]` is main. `sent` counts the messages there were at the start as well.
      `failed` records an mq_notify() that found a registration in place. */
  datatype State<M(==)> = State(queue: seq<M>, registered: bool, threads: seq<Phase>, failed: bool,
                                sent: multiset<M>, received: multiset<M>)

  datatype Action<M> =
    | Send(m: M)
    | Register(t: nat)
    | Receive(t: nat, k: nat)
    | Finish(t: nat)

  function Init<M>(queue: seq<M>): State<M> {
    State(queue, false, [Registering], false, multiset(queue), multiset{})
  }

  /** `capacity` is the size of the queue; which message mq_receive() picks is left open. */
  predicate Enabled<M>(s: State<M>, a: Action<M>, capacity: nat) {
    !s.failed &&
    match a
    case Send(_) => |s.queue| < capacity
    case Register(t) => t < |s.threads| && s.threads[t] == Registering
    case Receive(t, k) => t < |s.threads| && s.threads[t] == Draining && k < |s.queue|
    case Finish(t) => t < |s.threads| && s.threads[t] == Draining && s.queue == []
  }

  function Do<M>(s: State<M>, a: Action<M>, capacity: nat): State<M>
    requires Enabled(s, a, capacity)
  {
    match a
    case Send(m) =>
      var s1 := s.(queue := s.queue + [m], sent := s.sent + multiset{m});
      if s.registered && s.queue == [] then s1.(registered := false, threads := s.threads + [Registering])
      else s1
    case Register(t) =>
      if s.registered then s.(failed := true)
      else s.(registered := true, threads := s.threads[t := Draining])
    case Receive(t, k) =>
      s.(queue := s.queue[..k] + s.queue[k+1..], received := s.received + multiset{s.queue[k]})
    case Finish(t) => s.(threads := s.threads[t := Done])
  }

  /** `s` is reached from `s0` by `actions`. */
  ghost predicate Reaches<M(!new)>(s0: State<M>, actions: seq<Action<M>>, s: State<M>, capacity: nat) {
    if actions == [] then s == s0
    else
      var n := |actions| - 1;
      exists r :: Reaches(s0, actions[..n], r, capacity) && Enabled(r, actions[n], capacity)
                  && s == Do(r, actions[n], capacity)
  }

  ghost predicate Unfinished<M>(s: State<M>) {
    exists t :: 0 <= t < |s.threads| && s.threads[t] != Done
  }

  /** The registration is a token: it is either with the kernel or with exactly one thread
      that has been started and has not registered again. */
  ghost predicate Inv<M>(s: State<M>) {
    && !s.failed
    && (if s.registered then 1 else 0) + multiset(s.threads)[Registering] == 1
    && (s.queue != [] ==> Unfinished(s))
    && s.sent == s.received + multiset(s.queue)
  }

  lemma InitInv<M>(queue: seq<M>)
    ensures Inv(Init(queue))
  {
    assert Init(queue).threads[0] == Registering;
  }

  lemma RegisteringIsCounted(threads: seq<Phase>, t: nat)
    requires t < |threads|
    ensures threads[t] == Registering ==> multiset(threads)[Registering] >= 1
    ensures multiset(threads)[Registering] == 0 || exists u :: 0 <= u < |threads| && threads[u] == Registering
  {
    assert threads[t] in multiset(threads);
    if multiset(threads)[Registering] > 0 { assert Registering in multiset(threads); }
  }

  lemma StepKeepsToken<M>(s: State<M>, a: Action<M>, capacity: nat)
    requires Inv(s) && Enabled(s, a, capacity)
    ensures var s' := Do(s, a, capacity);
            !s'.failed && (if s'.registered then 1 else 0) + multiset(s'.threads)[Registering] == 1
  {
    if a.Register? {
      RegisteringIsCounted(s.threads, a.t);
    }
  }

  lemma StepKeepsDrainer<M>(s: State<M>, a: Action<M>, capacity: nat)
    requires Inv(s) && Enabled(s, a, capacity)
    ensures var s' := Do(s, a, capacity); s'.queue != [] ==> Unfinished(s')
  {
    var s' := Do(s, a, capacity);
    match a
    case Send(m) =>
      if s.registered && s.queue == [] {
        assert s'.threads[|s.threads|] == Registering;
      } else if s.queue == [] {
        assert Registering in multiset(s.threads);
        var u :| 0 <= u < |s.threads| && s.threads[u] == Registering;
        assert s'.threads[u] != Done;
      } else {
        var u :| 0 <= u < |s.threads| && s.threads[u] != Done;
        assert s'.threads[u] != Done;
      }
    case Register(t) =>
      StepKeepsToken(s, a, capacity);
      assert s'.threads[t] == Draining;
    case Receive(t, k) =>
      assert s'.threads[t] != Done;
    case Finish(t) =>
  }

  lemma StepConserves<M>(s: State<M>, a: Action<M>, capacity: nat)
    requires s.sent == s.received + multiset(s.queue) && Enabled(s, a, capacity)
    ensures var s' := Do(s, a, capacity); s'.sent == s'.received + multiset(s'.queue)
  {
    if a.Receive? {
      assert s.queue == s.queue[..a.k] + [s.queue[a.k]] + s.queue[a.k+1..];
    }
  }

  lemma StepInv<M>(s: State<M>, a: Action<M>, capacity: nat)
    requires Inv(s) && Enabled(s, a, capacity)
    ensures Inv(Do(s, a, capacity))
  {
    StepKeepsToken(s, a, capacity);
    StepKeepsDrainer(s, a, capacity);
    StepConserves(s, a, capacity);
  }

  lemma {:induction false} ReachableInv<M(!new)>(queue: seq<M>, actions: seq<Action<M>>, s: State<M>, capacity: nat)
    requires Reaches(Init(queue), actions, s, capacity)
    ensures Inv(s)
    decreases |actions|
  {
    if actions == [] {
      InitInv(queue);
    } else {
      var n := |actions| - 1;
      var r :| Reaches(Init(queue), actions[..n], r, capacity) && Enabled(r, actions[n], capacity)
               && s == Do(r, actions[n], capacity);
      ReachableInv(queue, actions[..n], r, capacity);
      StepInv(r, actions[n], capacity);
    }
  }

  /** In every run: re-registering never collides, a queue with messages always has an
      unfinished drainer, and once all drainers have finished, every message has been
      received exactly once and the registration is in place for the next one. */
  lemma NoMessageLost<M(!new)>(queue: seq<M>, actions: seq<Action<M>>, s: State<M>, capacity: nat)
    requires Reaches(Init(queue), actions, s, capacity)
    ensures !s.failed
    ensures forall t :: 0 <= t < |s.threads| && s.threads[t] == Registering ==> !s.registered
    ensures forall t, u :: 0 <= t < u < |s.threads| ==> !(s.threads[t] == s.threads[u] == Registering)
    ensures s.queue != [] ==> Unfinished(s)
    ensures !Unfinished(s) ==> s.received == s.sent && s.registered
  {
    ReachableInv(queue, actions, s, capacity);
    forall t | 0 <= t < |s.threads| && s.threads[t] == Registering ensures !s.registered {
      RegisteringIsCounted(s.threads, t);
    }
    forall t, u | 0 <= t < u < |s.threads| ensures !(s.threads[t] == s.threads[u] == Registering) {
      assert s.threads == s.threads[..u] + s.threads[u..];
      assert s.threads[..u][t] in multiset(s.threads[..u]) && s.threads[u..][0] in multiset(s.threads[u..]);
    }
    assert multiset(s.threads)[Registering] > 0 ==> Registering in multiset(s.threads);
  }

  // ---------------------------------------------------------------- draining ends

  /** Work left for the threads when nobody sends. */
  function Work<M>(s: State<M>): nat {
    |s.queue| + 2 * multiset(s.threads)[Registering] + multiset(s.threads)[Draining]
  }

  lemma WorkShrinks<M>(s: State<M>, a: Action<M>, capacity: nat)
    requires Inv(s) && Enabled(s, a, capacity) && !a.Send?
    ensures Work(Do(s, a, capacity)) < Work(s)
  {
    if a.Register? {
      RegisteringIsCounted(s.threads, a.t);
    } else if a.Finish? {
      assert s.threads[a.t] in multiset(s.threads);
    }
  }

  /** While no message is sent, the threads can take only as many steps as there is work. */
  lemma {:induction false} DrainingEnds<M(!new)>(s0: State<M>, actions: seq<Action<M>>, s: State<M>, capacity: nat)
    requires Inv(s0) && Reaches(s0, actions, s, capacity) && forall a :: a in actions ==> !a.Send?
    ensures Inv(s) && |actions| + Work(s) <= Work(s0)
    decreases |actions|
  {
    if actions != [] {
      var n := |actions| - 1;
      var r :| Reaches(s0, actions[..n], r, capacity) && Enabled(r, actions[n], capacity)
               && s == Do(r, actions[n], capacity);
      DrainingEnds(s0, actions[..n], r, capacity);
      StepInv(r, actions[n], capacity);
      WorkShrinks(r, actions[n], capacity);
    }
  }

  /** And when no thread can take a step, everything sent has been received. */
  lemma QuietMeansDrained<M(!new)>(s: State<M>, capacity: nat)
    requires Inv(s)
    requires forall a: Action<M> :: Enabled(s, a, capacity) ==> a.Send?
    ensures s.queue == [] && s.received == s.sent && s.registered
  {
    forall t | 0 <= t < |s.threads| ensures s.threads[t] == Done {
      var r: Action<M>, f: Action<M>, g: Action<M> := Register(t), Finish(t), Receive(t, 0);
      assert !Enabled(s, r, capacity) && !Enabled(s, f, capacity) && !Enabled(s, g, capacity);
    }
    assert multiset(s.threads)[Registering] > 0 ==> Registering in multiset(s.threads);
  }
}
