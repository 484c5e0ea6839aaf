/** `mq_notify_via_signal.c`: the signal handler sets `gotSig`; the main loop tests it,
    clears it, registers again and drains. The signal can be delivered between any two steps. */
module MqFlag {
  import opened MqKernel

  /** `Head`: before `if (gotSig)`. `Tested`: before `gotSig = 0`. `Cleared`: before
      mq_notify(). `Working`: at the end of the loop body. */
  datatype Place = Head | Tested | Cleared | Draining | Working

  datatype State<M(==)> = State(mq: Mq<M>, gotSig: bool, place: Place)

  datatype Action<M> = Send(m: M) | Deliver | Test | Clear | Register | Receive(k: nat) | Finish | Work

  function Init<M>(queue: seq<M>): State<M> {
    State(Opened(queue), true, Head)
  }

  predicate Enabled<M>(s: State<M>, a: Action<M>, capacity: nat) {
    !s.mq.failed &&
    match a
    case Send(_) => |s.mq.queue| < capacity
    case Deliver => s.mq.pending
    case Test => s.place == Head
    case Clear => s.place == Tested
    case Register => s.place == Cleared
    case Receive(k) => s.place == Draining && k < |s.mq.queue|
    case Finish => s.place == Draining && s.mq.queue == []
    case Work => s.place == Working
  }

  function Do<M>(s: State<M>, a: Action<M>, capacity: nat): State<M>
    requires Enabled(s, a, capacity)
  {
    match a
    case Send(m) => s.(mq := Sent(s.mq, m))
    case Deliver => s.(mq := s.mq.(pending := false), gotSig := true)
    case Test => s.(place := if s.gotSig then Tested else Working)
    case Clear => s.(gotSig := false, place := Cleared)
    case Register => s.(mq := Registered(s.mq), place := Draining)
    case Receive(k) => s.(mq := Received(s.mq, k))
    case Finish => s.(place := Working)
    case Work => s.(place := Head)
  }

  ghost predicate Reaches<M(!new)>(s0: State<M>, actions: seq<Action<M>>, s: State<M>, capacity: nat) {
    if actions == [] then s == s0
    else
      var n := |actions| - 1;
      exists r :: Reaches(s0, actions[..n], r, capacity) && Enabled(r, actions[n], capacity)
                  && s == Do(r, actions[n], capacity)
  }

  /** The registration is a token: with the kernel, in the pending signal, in the flag, or
      with the program between clearing the flag and registering again. */
  predicate Inv<M>(s: State<M>) {
    && !s.mq.failed
    && One(s.mq.registered) + One(s.mq.pending) + One(s.gotSig) + One(s.place == Cleared) == 1
    && (s.place == Tested ==> s.gotSig)
    && (s.place == Head || s.place == Working ==> s.gotSig || s.mq.pending || s.mq.queue == [])
    && Conserved(s.mq)
  }

  lemma StepInv<M>(s: State<M>, a: Action<M>, capacity: nat)
    requires Inv(s) && Enabled(s, a, capacity)
    ensures Inv(Do(s, a, capacity))
  {
    if a.Receive? { ReceivedConserves(s.mq, a.k); }
  }

  lemma {:induction false} ReachableInv<M(!new)>(s0: State<M>, actions: seq<Action<M>>, s: State<M>, capacity: nat)
    requires Inv(s0) && Reaches(s0, actions, s, capacity)
    ensures Inv(s)
    decreases |actions|
  {
    if actions != [] {
      var n := |actions| - 1;
      var r :| Reaches(s0, actions[..n], r, capacity) && Enabled(r, actions[n], capacity)
               && s == Do(r, actions[n], capacity);
      ReachableInv(s0, actions[..n], r, capacity);
      StepInv(r, actions[n], capacity);
    }
  }

  /** Whatever the queue holds at the start: registering never collides, no message is lost
      or received twice, and at the loop head, once the signal is delivered, either the flag
      is set or the program is registered and the queue is empty. */
  lemma LosesNothing<M(!new)>(queue: seq<M>, actions: seq<Action<M>>, s: State<M>, capacity: nat)
    requires Reaches(Init(queue), actions, s, capacity)
    ensures !s.mq.failed && Conserved(s.mq)
    ensures s.place == Head && !s.mq.pending ==> s.gotSig || (s.mq.registered && s.mq.queue == [])
    ensures s.place == Head && !s.mq.pending && !s.gotSig ==> s.mq.received == s.mq.sent
  {
    ReachableInv(Init(queue), actions, s, capacity);
  }

  // ---------------------------------------------------------------- progress

  function Left<M>(s: State<M>): nat {
    |s.mq.queue| + 6 * One(s.mq.pending) + 5 * One(s.gotSig)
    + match s.place case Head => 1 case Tested => 0 case Cleared => 4 case Draining => 3 case Working => 2
  }

  lemma StepsLeft<M>(s: State<M>, a: Action<M>, capacity: nat)
    requires Inv(s) && Enabled(s, a, capacity) && !a.Send?
    ensures Left(Do(s, a, capacity)) < Left(s) + if a.Test? then 2 else 0
  {
  }

  function Tests<M>(actions: seq<Action<M>>): nat {
    if actions == [] then 0
    else Tests(actions[..|actions|-1]) + One(actions[|actions|-1].Test?)
  }

  /** Without new messages the program cannot go on for ever without turning its loop: the
      steps it takes are bounded by what was left at the start and two for each turn. */
  lemma {:induction false} WorkEnds<M(!new)>(s0: State<M>, actions: seq<Action<M>>, s: State<M>, capacity: nat)
    requires Inv(s0) && Reaches(s0, actions, s, capacity) && forall a :: a in actions ==> !a.Send?
    ensures Inv(s) && |actions| + Left(s) <= Left(s0) + 2 * Tests(actions)
    decreases |actions|
  {
    if actions != [] {
      var n := |actions| - 1;
      var r :| Reaches(s0, actions[..n], r, capacity) && Enabled(r, actions[n], capacity)
               && s == Do(r, actions[n], capacity);
      WorkEnds(s0, actions[..n], r, capacity);
      StepInv(r, actions[n], capacity);
      StepsLeft(r, actions[n], capacity);
    }
  }
}
