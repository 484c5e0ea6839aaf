/** `multi_SIGCHLD.c` as a transition system: a parent that forks its children, then waits
    in sigsuspend() until its SIGCHLD handler has reaped all of them. */
module Sigchld {
  // SIGCHLD is blocked except in sigsuspend(), is blocked while its handler runs, and is not
  // queued: children that end while it is pending leave no trace but their zombies.

  datatype Child = Unforked | Running | Zombie | Reaped

  /** `Forking(j)`: about to fork child `j`. `Testing`: at the loop condition of main.
      `Reaping`, `Decrementing` and `Returning` are in the handler: before waitpid(),
      after one that reaped a child, and past the loop. */
  datatype Place = Forking(j: nat) | Testing | Suspended | Reaping | Decrementing | Returning | Exited

  datatype State = State(children: seq<Child>, numLiveChildren: int, pending: bool, place: Place, caught: nat)

  datatype Action = Fork | Die(i: nat) | Test | Deliver | Reap(i: nat) | NoMore | Decrement | Return

  function Init(n: nat): State {
    State(seq(n, _ => Unforked), n, false, Forking(0), 0)
  }

  predicate Enabled(s: State, a: Action) {
    match a
    case Fork => s.place.Forking?
    case Die(i) => i < |s.children| && s.children[i] == Running
    case Test => s.place == Testing
    case Deliver => s.place == Suspended && s.pending
    case Reap(i) => s.place == Reaping && i < |s.children| && s.children[i] == Zombie
    case NoMore => s.place == Reaping && Zombie !in s.children
    case Decrement => s.place == Decrementing
    case Return => s.place == Returning
  }

  function Do(s: State, a: Action): State
    requires Enabled(s, a)
  {
    match a
    case Fork =>
      var j := s.place.j;
      if j < |s.children| then s.(children := s.children[j := Running], place := Forking(j + 1))
      else s.(place := Testing)
    case Die(i) => s.(children := s.children[i := Zombie], pending := true)
    case Test => s.(place := if s.numLiveChildren > 0 then Suspended else Exited)
    case Deliver => s.(pending := false, place := Reaping)
    case Reap(i) => s.(children := s.children[i := Reaped], place := Decrementing)
    case NoMore => s.(place := Returning)
    case Decrement => s.(numLiveChildren := s.numLiveChildren - 1, place := Reaping)
    case Return => s.(place := Testing, caught := s.caught + 1)
  }

  ghost predicate Reaches(s0: State, actions: seq<Action>, s: State) {
    if actions == [] then s == s0
    else
      var n := |actions| - 1;
      exists r :: Reaches(s0, actions[..n], r) && Enabled(r, actions[n]) && s == Do(r, actions[n])
  }

  // ---------------------------------------------------------------- the invariant

  function CountIn(children: seq<Child>, c: Child): nat {
    if children == [] then 0 else (if children[0] == c then 1 else 0) + CountIn(children[1..], c)
  }

  function Count(s: State, c: Child): nat { CountIn(s.children, c) }

  lemma {:induction false} CountUpdate(children: seq<Child>, i: nat, to: Child, c: Child)
    requires i < |children|
    ensures CountIn(children[i := to], c) + (if children[i] == c then 1 else 0)
            == CountIn(children, c) + (if to == c then 1 else 0)
  {
    if i > 0 {
      assert children[i := to][1..] == children[1..][i - 1 := to];
      CountUpdate(children[1..], i - 1, to, c);
    }
  }

  lemma {:induction false} CountIsPresence(children: seq<Child>, c: Child)
    ensures CountIn(children, c) > 0 <==> c in children
  {
    if children != [] { CountIsPresence(children[1..], c); }
  }

  lemma CountsAfter(s: State, i: nat, to: Child)
    requires i < |s.children| && s.children[i] != to
    ensures var s' := s.(children := s.children[i := to]);
            && Count(s', s.children[i]) == Count(s, s.children[i]) - 1
            && Count(s', to) == Count(s, to) + 1
            && forall c :: c != to && c != s.children[i] ==> Count(s', c) == Count(s, c)
  {
    CountUpdate(s.children, i, to, s.children[i]);
    CountUpdate(s.children, i, to, to);
    forall c | c != to && c != s.children[i] ensures CountIn(s.children[i := to], c) == CountIn(s.children, c) {
      CountUpdate(s.children, i, to, c);
    }
  }

  /** What a step does to the counts. */
  lemma StepCounts(s: State, a: Action)
    requires Inv(s) && Enabled(s, a)
    ensures var s' := Do(s, a);
            var forked := a.Fork? && s.place.j < |s.children|;
            && Count(s', Unforked) == Count(s, Unforked) - (if forked then 1 else 0)
            && Count(s', Running) == Count(s, Running) + (if forked then 1 else 0) - (if a.Die? then 1 else 0)
            && Count(s', Zombie) == Count(s, Zombie) + (if a.Die? then 1 else 0) - (if a.Reap? then 1 else 0)
            && Count(s', Reaped) == Count(s, Reaped) + (if a.Reap? then 1 else 0)
  {
    match a
    case Fork => if s.place.j < |s.children| { CountsAfter(s, s.place.j, Running); }
    case Die(i) => CountsAfter(s, i, Zombie);
    case Reap(i) => CountsAfter(s, i, Reaped);
    case _ =>
  }

  predicate InHandler(p: Place) { p == Reaping || p == Decrementing || p == Returning }

  /** Outside the reap step the counter is the number of children not yet reaped. */
  predicate Counted(s: State) {
    && Count(s, Unforked) + Count(s, Running) + Count(s, Zombie) + Count(s, Reaped) == |s.children|
    && s.numLiveChildren == Count(s, Unforked) + Count(s, Running) + Count(s, Zombie)
                            + if s.place == Decrementing then 1 else 0
  }

  predicate Forked(s: State) {
    match s.place
    case Forking(j) => j <= |s.children| && forall i :: 0 <= i < |s.children| ==> (s.children[i] == Unforked <==> j <= i)
    case _ => Unforked !in s.children
  }

  /** A zombie has its signal pending or is about to be looked for. */
  predicate Noticed(s: State) {
    && (Zombie in s.children ==> s.pending || s.place == Reaping || s.place == Decrementing)
    && (s.place == Suspended ==> s.numLiveChildren > 0)
    && (s.place == Exited ==> s.numLiveChildren == 0)
  }

  /** Signals caught are at most deaths, and at least one once a child is reaped. */
  predicate CaughtSome(s: State) {
    && s.caught + (if s.pending then 1 else 0) + (if InHandler(s.place) then 1 else 0)
       <= Count(s, Zombie) + Count(s, Reaped)
    && (Count(s, Reaped) > 0 ==> s.caught > 0 || InHandler(s.place))
  }

  predicate Inv(s: State) {
    Counted(s) && Forked(s) && Noticed(s) && CaughtSome(s)
  }

  lemma {:induction false} InitCounts(n: nat)
    ensures var cs := seq(n, _ => Unforked);
            CountIn(cs, Unforked) == n && CountIn(cs, Running) == CountIn(cs, Zombie) == CountIn(cs, Reaped) == 0
  {
    if n > 0 {
      InitCounts(n - 1);
      assert seq(n, _ => Unforked)[1..] == seq(n - 1, _ => Unforked);
    }
  }

  lemma InitInv(n: nat)
    ensures Inv(Init(n))
  {
    InitCounts(n);
  }

  lemma StepNoticed(s: State, a: Action)
    requires Inv(s) && Enabled(s, a)
    ensures Noticed(Do(s, a))
  {
    StepCounts(s, a);
    CountIsPresence(s.children, Zombie);
    CountIsPresence(Do(s, a).children, Zombie);
  }

  lemma StepInv(s: State, a: Action)
    requires Inv(s) && Enabled(s, a)
    ensures Inv(Do(s, a)) && |Do(s, a).children| == |s.children|
  {
    StepCounts(s, a);
    StepNoticed(s, a);
  }

  lemma {:induction false} ReachableInv(n: nat, actions: seq<Action>, s: State)
    requires Reaches(Init(n), actions, s)
    ensures Inv(s) && |s.children| == n
    decreases |actions|
  {
    if actions == [] {
      InitInv(n);
    } else {
      var k := |actions| - 1;
      var r :| Reaches(Init(n), actions[..k], r) && Enabled(r, actions[k]) && s == Do(r, actions[k]);
      ReachableInv(n, actions[..k], r);
      StepInv(r, actions[k]);
    }
  }

  /** In every run: in sigsuspend() with nothing pending there is no zombie and a child still
      runs; the parent exits only when all children are reaped, having caught at most one
      signal for each child and at least one in all. */
  lemma NoChildMissed(n: nat, actions: seq<Action>, s: State)
    requires Reaches(Init(n), actions, s)
    ensures s.place != Decrementing ==>
              s.numLiveChildren == Count(s, Unforked) + Count(s, Running) + Count(s, Zombie)
    ensures s.place == Suspended && !s.pending ==> Zombie !in s.children && Running in s.children
    ensures s.place == Exited ==> |s.children| == n && forall i :: 0 <= i < n ==> s.children[i] == Reaped
    ensures s.place == Exited ==> s.caught <= n && (n > 0 ==> s.caught > 0)
  {
    ReachableInv(n, actions, s);
    CountIsPresence(s.children, Unforked);
    CountIsPresence(s.children, Running);
    CountIsPresence(s.children, Zombie);
    if s.place == Exited {
      forall i | 0 <= i < n ensures s.children[i] == Reaped {
        assert s.children[i] in s.children;
      }
    }
  }

  // ---------------------------------------------------------------- the parent ends

  function Left(s: State): nat {
    8 * Count(s, Unforked) + 7 * Count(s, Running) + 2 * Count(s, Zombie) + (if s.pending then 4 else 0)
    + match s.place
      case Forking(_) => 2
      case Testing => 1
      case Suspended => 0
      case Reaping => 3
      case Decrementing => 4
      case Returning => 2
      case Exited => 0
  }

  lemma StepShrinks(s: State, a: Action)
    requires Inv(s) && Enabled(s, a)
    ensures Left(Do(s, a)) < Left(s)
  {
    StepCounts(s, a);
  }

  /** Every run is finite, within a number of steps linear in the number of children. */
  lemma {:induction false} RunsEnd(n: nat, actions: seq<Action>, s: State)
    requires Reaches(Init(n), actions, s)
    ensures |actions| + Left(s) <= 8 * n + 2
    decreases |actions|
  {
    if actions == [] {
      InitCounts(n);
    } else {
      var k := |actions| - 1;
      var r :| Reaches(Init(n), actions[..k], r) && Enabled(r, actions[k]) && s == Do(r, actions[k]);
      RunsEnd(n, actions[..k], r);
      ReachableInv(n, actions[..k], r);
      StepShrinks(r, actions[k]);
    }
  }

  /** And a run that cannot go on has ended with the parent's exit: it never waits for good. */
  lemma OnlyExitStops(n: nat, actions: seq<Action>, s: State)
    requires Reaches(Init(n), actions, s)
    requires forall a :: !Enabled(s, a)
    ensures s.place == Exited && forall i :: 0 <= i < |s.children| ==> s.children[i] == Reaped
  {
    NoChildMissed(n, actions, s);
    assert !Enabled(s, Fork) && !Enabled(s, Test) && !Enabled(s, Deliver) && !Enabled(s, NoMore);
    assert !Enabled(s, Decrement) && !Enabled(s, Return);
    assert Running !in s.children by {
      assert forall i: nat :: i < |s.children| && s.children[i] == Running ==> Enabled(s, Die(i));
    }
    assert s.place == Reaping ==> Zombie !in s.children by {
      assert forall i: nat :: s.place == Reaping && i < |s.children| && s.children[i] == Zombie ==> Enabled(s, Reap(i));
    }
  }
}
