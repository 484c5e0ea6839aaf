/** `mq_notify_sig.c`: the notification signal is blocked except inside sigsuspend(); each
    round waits, registers again, then drains the queue. Senders run at any time. */
module MqSuspend {
  import opened MqKernel

  /** `Starting` is just before the first mq_notify(), `Woken` before the one in the loop. */
  datatype Place = Starting | Suspended | Woken | Draining

  datatype State<M(==)> = State(mq: Mq<M>, place: Place)

  datatype Action<M> = Send(m: M) | Register | Wake | Receive(k: nat) | Finish

  /** A run begins at the first registration: messages that came before it are in `queue`. */
  function Init<M>(queue: seq<M>): State<M> {
    State(Opened(queue), Starting)
  }

  predicate Enabled<M>(s: State<M>, a: Action<M>, capacity: nat) {
    !s.mq.failed &&
    match a
    case Send(_) => s.place != Starting && |s.mq.queue| < capacity
    case Register => s.place == Starting || s.place == Woken
    case Wake => s.place == Suspended && s.mq.pending
    case Receive(k) => s.place == Draining && k < |s.mq.queue|
    case Finish => s.place == Draining && s.mq.queue == []
  }

  function Do<M>(s: State<M>, a: Action<M>, capacity: nat): State<M>
    requires Enabled(s, a, capacity)
  {
    match a
    case Send(m) => s.(mq := Sent(s.mq, m))
    case Register => State(Registered(s.mq), if s.place == Starting then Suspended else Draining)
    case Wake => State(s.mq.(pending := false), Woken)
    case Receive(k) => s.(mq := Received(s.mq, k))
    case Finish => s.(place := Suspended)
  }

  ghost predicate Reaches<M(!new)>(s0: State<M>, actions: seq<Action<M>>, s: State<M>, capacity: nat) {
    if actions == [] then s == s0
    else
      var n := |actions| - 1;
      exists r :: Reaches(s0, actions[..n], r, capacity) && Enabled(r, actions[n], capacity)
                  && s == Do(r, actions[n], capacity)
  }

  /** The program can only wait: it is in sigsuspend() with no signal pending. */
  predicate Waiting<M>(s: State<M>) {
    s.place == Suspended && !s.mq.pending
  }

  // ---------------------------------------------------------------- started on an empty queue

  /** The registration is a token, held by the kernel, by the pending signal or by the
      program on its way to mq_notify(). */
  predicate Inv<M>(s: State<M>) {
    && !s.mq.failed
    && One(s.mq.registered) + One(s.mq.pending) + One(s.place == Starting || s.place == Woken) == 1
    && (s.mq.queue != [] ==> s.place != Starting)
    && (s.mq.queue != [] && s.place == Suspended ==> s.mq.pending)
    && Conserved(s.mq)
  }

  lemma StepInv<M>(s: State<M>, a: Action<M>, capacity: nat)
    requires Inv(s) && Enabled(s, a, capacity)
    ensures Inv(Do(s, a, capacity))
  {
    if a.Receive? { ReceivedConserves(s.mq, a.k); }
  }

  lemma {:induction false} ReachableInv<M(!new)>(s0: State<M>, actions: seq<Action<M>>, s: State<M>, capacity: nat)
    requires Inv(s0) && Reaches(s0, actions, s, capacity)
    ensures Inv(s)
    decreases |actions|
  {
    if actions != [] {
      var n := |actions| - 1;
      var r :| Reaches(s0, actions[..n], r, capacity) && Enabled(r, actions[n], capacity)
               && s == Do(r, actions[n], capacity);
      ReachableInv(s0, actions[..n], r, capacity);
      StepInv(r, actions[n], capacity);
    }
  }

  /** In every run that starts on an empty queue: registering never collides, no message is
      lost or received twice, and at every sigsuspend() exactly one of "registered" and
      "pending" holds, the second if there are messages. */
  lemma EmptyStartLosesNothing<M(!new)>(actions: seq<Action<M>>, s: State<M>, capacity: nat)
    requires Reaches(Init([]), actions, s, capacity)
    ensures !s.mq.failed && Conserved(s.mq)
    ensures s.place == Suspended ==> s.mq.registered != s.mq.pending
    ensures s.place == Suspended && s.mq.queue != [] ==> s.mq.pending
    ensures Waiting(s) ==> s.mq.received == s.mq.sent
  {
    ReachableInv(Init([]), actions, s, capacity);
  }

  /** Steps left for the program when nobody sends. */
  function Work<M>(s: State<M>): nat {
    |s.mq.queue| + 3 * One(s.mq.pending)
    + match s.place case Starting => 1 case Suspended => 0 case Woken => 2 case Draining => 1
  }

  lemma WorkShrinks<M>(s: State<M>, a: Action<M>, capacity: nat)
    requires Inv(s) && Enabled(s, a, capacity) && !a.Send?
    ensures Work(Do(s, a, capacity)) < Work(s)
  {
  }

  lemma {:induction false} WorkEnds<M(!new)>(s0: State<M>, actions: seq<Action<M>>, s: State<M>, capacity: nat)
    requires Inv(s0) && Reaches(s0, actions, s, capacity) && forall a :: a in actions ==> !a.Send?
    ensures Inv(s) && |actions| + Work(s) <= Work(s0)
    decreases |actions|
  {
    if actions != [] {
      var n := |actions| - 1;
      var r :| Reaches(s0, actions[..n], r, capacity) && Enabled(r, actions[n], capacity)
               && s == Do(r, actions[n], capacity);
      WorkEnds(s0, actions[..n], r, capacity);
      StepInv(r, actions[n], capacity);
      WorkShrinks(r, actions[n], capacity);
    }
  }

  /** The program never stops before everything sent has been received. */
  lemma OnlyWaitingStops<M(!new)>(s: State<M>, capacity: nat)
    requires Inv(s)
    requires forall a: Action<M> :: Enabled(s, a, capacity) ==> a.Send?
    ensures Waiting(s) && s.mq.received == s.mq.sent
  {
    var r: Action<M>, w: Action<M>, f: Action<M>, g: Action<M> := Register, Wake, Finish, Receive(0);
    assert !Enabled(s, r, capacity) && !Enabled(s, w, capacity);
    assert !Enabled(s, f, capacity) && !Enabled(s, g, capacity);
  }

  // ---------------------------------------------------------------- started on messages

  predicate Stuck<M>(s: State<M>) {
    Waiting(s) && s.mq.registered && s.mq.queue != [] && s.mq.received == multiset{}
  }

  lemma {:induction false} StaysStuck<M(!new)>(s0: State<M>, actions: seq<Action<M>>, s: State<M>, capacity: nat)
    requires Stuck(s0) && Reaches(s0, actions, s, capacity)
    ensures Stuck(s)
    decreases |actions|
  {
    if actions != [] {
      var n := |actions| - 1;
      var r :| Reaches(s0, actions[..n], r, capacity) && Enabled(r, actions[n], capacity)
               && s == Do(r, actions[n], capacity);
      StaysStuck(s0, actions[..n], r, capacity);
    }
  }

  /** If there is a message at the first registration, the program waits for good: whatever
      is sent afterwards, nothing is ever received. */
  lemma {:induction false} MessageAtStartBlocks<M(!new)>(queue: seq<M>, actions: seq<Action<M>>, s: State<M>, capacity: nat)
    requires queue != [] && Reaches(Init(queue), actions, s, capacity)
    ensures s == Init(queue) || Stuck(s)
    decreases |actions|
  {
    if actions != [] {
      var n := |actions| - 1;
      var r :| Reaches(Init(queue), actions[..n], r, capacity) && Enabled(r, actions[n], capacity)
               && s == Do(r, actions[n], capacity);
      MessageAtStartBlocks(queue, actions[..n], r, capacity);
    }
  }

  /** Whenever the program waits, all messages have been received. */
  ghost predicate Drains<M(!new)>(queue: seq<M>, capacity: nat) {
    forall actions: seq<Action<M>>, s: State<M> ::
      Reaches(Init(queue), actions, s, capacity) && Waiting(s) ==> s.mq.received == s.mq.sent
  }

  /** It is so exactly when the queue is empty at the first registration. */
  lemma DrainsExactly<M(!new)>(queue: seq<M>, capacity: nat)
    ensures Drains(queue, capacity) <==> queue == []
  {
    if queue == [] {
      forall actions: seq<Action<M>>, s: State<M> | Reaches(Init(queue), actions, s, capacity) && Waiting(s)
        ensures s.mq.received == s.mq.sent
      {
        EmptyStartLosesNothing(actions, s, capacity);
      }
    } else {
      var a: Action<M> := Register;
      var s := Do(Init(queue), a, capacity);
      assert [a][..0] == [];
      assert Reaches(Init(queue), [a][..0], Init(queue), capacity);
      assert Reaches(Init(queue), [a], s, capacity);
      assert queue[0] in s.mq.sent;
    }
  }
}
