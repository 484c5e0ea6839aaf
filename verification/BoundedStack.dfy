/** `quiz/quiz3/stack.c` as a transition system: any number of threads push and pop under
    a mutex and a condition variable that may wake the wrong thread or wake unasked. */
module BoundedStack {
  import opened Options

  const STACK_SIZE := 3

  datatype Op = Push(v: int) | Pop

  /** A finished operation: what was pushed, or what pop() returned. */
  datatype Call = Pushed(v: int) | Popped(v: int)

  datatype Event = Event(t: nat, call: Call)

  /** `Storing` and `Counting` are the two halves of `buffer[index++] = v`, `Dropping` and
      `Reading` those of `buffer[--index]`. */
  datatype Place = Out | Locking | Testing | Waiting | Relocking
                 | Storing | Counting | Dropping | Reading | Signalling | Unlocking

  /** `log` holds the calls of this thread that have returned. */
  datatype Thread = Thread(place: Place, op: Op, result: int, log: seq<Call>)

  /** `fault` records an access outside the buffer. `history` holds the operations in the
      order in which they took effect, `signals` counts the calls of pthread_cond_signal(). */
  datatype State = State(buffer: seq<int>, index: int, owner: Option<nat>, threads: seq<Thread>,
                         fault: bool, history: seq<Event>, signals: nat)

  datatype Action =
    | Invoke(t: nat, op: Op)
    | Lock(t: nat)
    | Wake(t: nat)
    | Signal(t: nat, woken: Option<nat>)
    | Step(t: nat)

  function Init(n: nat, junk: seq<int>): State
    requires |junk| == STACK_SIZE
  {
    State(junk, 0, None, seq(n, _ => Thread(Out, Pop, 0, [])), false, [], 0)
  }

  predicate Waits(threads: seq<Thread>, t: nat) {
    t < |threads| && threads[t].place == Waiting
  }

  /** pthread_cond_signal() wakes a waiting thread if there is one; `Wake` is a wakeup that
      no signal explains, and it also stands for a signal that wakes several. */
  predicate Enabled(s: State, a: Action) {
    a.t < |s.threads| && !s.fault &&
    var place := s.threads[a.t].place;
    match a
    case Invoke(t, op) => place == Out
    case Lock(t) => (place == Locking || place == Relocking) && s.owner == None
    case Wake(t) => place == Waiting
    case Signal(t, woken) =>
      place == Signalling &&
      (match woken
       case Some(w) => Waits(s.threads, w)
       case None => forall w :: 0 <= w < |s.threads| ==> !Waits(s.threads, w))
    case Step(t) =>
      place == Testing || place == Storing || place == Counting || place == Dropping
      || place == Reading || place == Unlocking
  }

  function Record(th: Thread): Call {
    if th.op.Push? then Pushed(th.op.v) else Popped(th.result)
  }

  /** One step of the thread that holds the mutex. */
  function StepOf(s: State, t: nat): State
    requires t < |s.threads|
  {
    var th := s.threads[t];
    match th.place
    case Testing =>
      if s.index == if th.op.Push? then STACK_SIZE else 0
      then s.(threads := s.threads[t := th.(place := Waiting)], owner := None)
      else s.(threads := s.threads[t := th.(place := if th.op.Push? then Storing else Dropping)])
    case Storing =>
      if th.op.Push? && 0 <= s.index < |s.buffer| then
        s.(buffer := s.buffer[s.index := th.op.v], threads := s.threads[t := th.(place := Counting)])
      else s.(fault := true)
    case Counting =>
      s.(index := s.index + 1, history := s.history + [Event(t, Record(th))],
         threads := s.threads[t := th.(place := Signalling)])
    case Dropping =>
      s.(index := s.index - 1, threads := s.threads[t := th.(place := Reading)])
    case Reading =>
      if 0 <= s.index < |s.buffer| then
        var th' := th.(result := s.buffer[s.index], place := Signalling);
        s.(history := s.history + [Event(t, Record(th'))], threads := s.threads[t := th'])
      else s.(fault := true)
    case Unlocking =>
      s.(owner := None, threads := s.threads[t := th.(place := Out, log := th.log + [Record(th)])])
    case _ => s
  }

  function Do(s: State, a: Action): State
    requires Enabled(s, a)
  {
    var th := s.threads[a.t];
    match a
    case Invoke(t, op) => s.(threads := s.threads[t := th.(place := Locking, op := op)])
    case Lock(t) => s.(threads := s.threads[t := th.(place := Testing)], owner := Some(t))
    case Wake(t) => s.(threads := s.threads[t := th.(place := Relocking)])
    case Signal(t, woken) =>
      var threads := s.threads[t := th.(place := Unlocking)];
      (match woken
       case Some(w) => s.(threads := threads[w := s.threads[w].(place := Relocking)], signals := s.signals + 1)
       case None => s.(threads := threads, signals := s.signals + 1))
    case Step(t) => StepOf(s, t)
  }

  ghost predicate Reaches(s0: State, actions: seq<Action>, s: State) {
    if actions == [] then s == s0
    else
      var n := |actions| - 1;
      exists r :: Reaches(s0, actions[..n], r) && Enabled(r, actions[n]) && s == Do(r, actions[n])
  }

  // ---------------------------------------------------------------- a bounded LIFO stack

  /** The stack after a history, if a bounded LIFO stack allows it. */
  function Replay(history: seq<Event>): Option<seq<int>> {
    if history == [] then Some([])
    else
      match Replay(history[..|history|-1])
      case None => None
      case Some(stack) =>
        match history[|history|-1].call
        case Pushed(v) => if |stack| < STACK_SIZE then Some(stack + [v]) else None
        case Popped(v) => if stack != [] && stack[|stack|-1] == v then Some(stack[..|stack|-1]) else None
  }

  /** What the calls of thread `t` in a history were. */
  function Of(t: nat, history: seq<Event>): seq<Call> {
    if history == [] then []
    else
      var last := history[|history|-1];
      Of(t, history[..|history|-1]) + if last.t == t then [last.call] else []
  }

  function PushedIn(history: seq<Event>): multiset<int> {
    if history == [] then multiset{}
    else
      var last := history[|history|-1];
      PushedIn(history[..|history|-1]) + if last.call.Pushed? then multiset{last.call.v} else multiset{}
  }

  function PoppedIn(history: seq<Event>): multiset<int> {
    if history == [] then multiset{}
    else
      var last := history[|history|-1];
      PoppedIn(history[..|history|-1]) + if last.call.Popped? then multiset{last.call.v} else multiset{}
  }

  lemma PopConserves(pushed: multiset<int>, popped: multiset<int>, stack: seq<int>, v: int)
    requires stack != [] && stack[|stack|-1] == v && pushed == popped + multiset(stack)
    ensures pushed == popped + multiset{v} + multiset(stack[..|stack|-1])
  {
    assert stack == stack[..|stack|-1] + [v];
  }

  /** What the last event does to the counts and to the stack. */
  lemma LastEvent(before: seq<Event>, e: Event)
    ensures (before + [e])[..|before|] == before
    ensures PushedIn(before + [e]) == PushedIn(before) + if e.call.Pushed? then multiset{e.call.v} else multiset{}
    ensures PoppedIn(before + [e]) == PoppedIn(before) + if e.call.Popped? then multiset{e.call.v} else multiset{}
  {
    assert (before + [e])[..|before|] == before;
  }

  lemma NothingMore(s: multiset<int>)
    ensures s + multiset{} == s
  {
  }

  lemma {:induction false} LegalConserves(history: seq<Event>)
    requires Replay(history).Some?
    ensures PushedIn(history) == PoppedIn(history) + multiset(Replay(history).value)
    ensures |Replay(history).value| <= STACK_SIZE
  {
    if history != [] {
      var before, last := history[..|history|-1], history[|history|-1];
      assert history == before + [last];
      LegalConserves(before);
      LastEvent(before, last);
      var pushed, popped, stack := PushedIn(before), PoppedIn(before), Replay(before).value;
      match last.call
      case Pushed(v) =>
        NothingMore(popped);
      case Popped(v) =>
        PopConserves(pushed, popped, stack, v);
        NothingMore(pushed);
    }
  }

  lemma ReplayMore(history: seq<Event>, e: Event)
    ensures (history + [e])[..|history|] == history
    ensures forall t :: Of(t, history + [e]) == Of(t, history) + if e.t == t then [e.call] else []
  {
    assert (history + [e])[..|history|] == history;
  }

  // ---------------------------------------------------------------- the invariant

  predicate Holds(p: Place) {
    p == Testing || p == Storing || p == Counting || p == Dropping || p == Reading
    || p == Signalling || p == Unlocking
  }

  /** Exactly the thread recorded as owner is between lock and unlock. */
  predicate LockOk(s: State) {
    forall t :: 0 <= t < |s.threads| ==> (Holds(s.threads[t].place) <==> s.owner == Some(t))
  }

  function Stacked(buffer: seq<int>, n: int): Option<seq<int>> {
    if 0 <= n <= |buffer| then Some(buffer[..n]) else None
  }

  /** The shared data agrees with the history, as far as the owner's place lets it. */
  predicate DataAt(place: Place, op: Op, buffer: seq<int>, index: int, history: seq<Event>) {
    && |buffer| == STACK_SIZE && 0 <= index <= STACK_SIZE
    && Replay(history) == Stacked(buffer, if place == Reading then index + 1 else index)
    && (place == Storing || place == Counting ==> op.Push? && index < STACK_SIZE)
    && (place == Counting && op.Push? && index < STACK_SIZE ==> buffer[index] == op.v)
    && (place == Dropping ==> op.Pop? && index > 0)
    && (place == Reading ==> op.Pop? && index < STACK_SIZE)
    && (place == Signalling ==> if op.Push? then index > 0 else index < STACK_SIZE)
  }

  predicate DataOk(s: State) {
    && !s.fault
    && match s.owner
       case None => DataAt(Out, Pop, s.buffer, s.index, s.history)
       case Some(t) =>
         t < |s.threads| && DataAt(s.threads[t].place, s.threads[t].op, s.buffer, s.index, s.history)
  }

  /** Each thread's returned calls are its part of the history, but for one not yet returned. */
  predicate LogOk(t: nat, th: Thread, history: seq<Event>) {
    Of(t, history) == th.log + if th.place == Signalling || th.place == Unlocking then [Record(th)] else []
  }

  /** Each operation that took effect has been signalled, or is about to be. */
  predicate SignalsOk(s: State) {
    |s.history| == s.signals
      + (if s.owner.Some? && s.owner.value < |s.threads| && s.threads[s.owner.value].place == Signalling
         then 1 else 0)
  }

  predicate Inv(s: State) {
    && LockOk(s)
    && DataOk(s)
    && SignalsOk(s)
    && forall t :: 0 <= t < |s.threads| ==> LogOk(t, s.threads[t], s.history)
  }

  lemma StepLock(s: State, a: Action)
    requires LockOk(s) && Enabled(s, a)
    ensures LockOk(Do(s, a))
  {
  }

  lemma StepSignals(s: State, a: Action)
    requires LockOk(s) && DataOk(s) && SignalsOk(s) && Enabled(s, a)
    ensures SignalsOk(Do(s, a))
  {
    StepLock(s, a);
    StepData(s, a);
  }

  lemma CountingKeepsData(op: Op, buffer: seq<int>, index: int, history: seq<Event>, t: nat)
    requires DataAt(Counting, op, buffer, index, history)
    ensures DataAt(Signalling, op, buffer, index + 1, history + [Event(t, Pushed(op.v))])
  {
    ReplayMore(history, Event(t, Pushed(op.v)));
    assert buffer[..index + 1] == buffer[..index] + [op.v];
  }

  lemma ReadingKeepsData(op: Op, buffer: seq<int>, index: int, history: seq<Event>, t: nat)
    requires DataAt(Reading, op, buffer, index, history)
    ensures DataAt(Signalling, op, buffer, index, history + [Event(t, Popped(buffer[index]))])
  {
    ReplayMore(history, Event(t, Popped(buffer[index])));
    assert buffer[..index + 1][..index] == buffer[..index];
  }

  lemma StoringKeepsData(op: Op, buffer: seq<int>, index: int, history: seq<Event>)
    requires DataAt(Storing, op, buffer, index, history)
    ensures DataAt(Counting, op, buffer[index := op.v], index, history)
  {
    assert buffer[index := op.v][..index] == buffer[..index];
  }

  lemma StepOfData(s: State, t: nat)
    requires s.owner == Some(t) && DataOk(s)
    ensures DataOk(StepOf(s, t))
  {
    var th := s.threads[t];
    if th.place == Counting || th.place == Reading || th.place == Storing {
      StepOfBuffer(s, t);
    } else {
      StepOfPlace(s, t);
    }
  }

  lemma StepOfBuffer(s: State, t: nat)
    requires s.owner == Some(t) && DataOk(s)
    requires s.threads[t].place == Counting || s.threads[t].place == Reading || s.threads[t].place == Storing
    ensures DataOk(StepOf(s, t))
  {
    var th := s.threads[t];
    if th.place == Counting {
      CountingKeepsData(th.op, s.buffer, s.index, s.history, t);
    } else if th.place == Reading {
      ReadingKeepsData(th.op, s.buffer, s.index, s.history, t);
    } else {
      StoringKeepsData(th.op, s.buffer, s.index, s.history);
    }
  }

  /** The other steps change neither the buffer nor the history. */
  lemma StepOfPlace(s: State, t: nat)
    requires s.owner == Some(t) && DataOk(s)
    requires s.threads[t].place != Counting && s.threads[t].place != Reading && s.threads[t].place != Storing
    ensures DataOk(StepOf(s, t))
  {
  }

  lemma StepData(s: State, a: Action)
    requires LockOk(s) && DataOk(s) && Enabled(s, a)
    ensures DataOk(Do(s, a))
  {
    if a.Step? { StepOfData(s, a.t); }
  }

  lemma StepLog(s: State, a: Action, t: nat)
    requires Inv(s) && Enabled(s, a) && t < |s.threads|
    ensures |Do(s, a).threads| == |s.threads| && LogOk(t, Do(s, a).threads[t], Do(s, a).history)
  {
    assert LogOk(t, s.threads[t], s.history);
    if a.Step? {
      StepOfLog(s, a.t, t);
    }
  }

  /** Thread `u` takes effect: its record joins the history. */
  lemma EffectKeepsLog(t: nat, th: Thread, u: nat, th': Thread, history: seq<Event>)
    requires LogOk(t, th, history)
    requires th' == th || u == t
    requires u == t ==> th.place != Signalling && th.place != Unlocking
                        && th'.place == Signalling && th'.log == th.log
    ensures forall call :: (u == t ==> call == Record(th')) ==> LogOk(t, th', history + [Event(u, call)])
  {
    forall call | u == t ==> call == Record(th') ensures LogOk(t, th', history + [Event(u, call)]) {
      ReplayMore(history, Event(u, call));
    }
  }

  lemma StepOfLog(s: State, u: nat, t: nat)
    requires u < |s.threads| && t < |s.threads| && LogOk(t, s.threads[t], s.history)
    ensures |StepOf(s, u).threads| == |s.threads|
    ensures LogOk(t, StepOf(s, u).threads[t], StepOf(s, u).history)
  {
    var s' := StepOf(s, u);
    if s.threads[u].place == Counting || (s.threads[u].place == Reading && 0 <= s.index < |s.buffer|) {
      EffectKeepsLog(t, s.threads[t], u, s'.threads[t], s.history);
    } else {
      assert s'.history == s.history;
    }
  }

  lemma StepInv(s: State, a: Action)
    requires Inv(s) && Enabled(s, a)
    ensures Inv(Do(s, a))
  {
    StepLock(s, a);
    StepData(s, a);
    StepSignals(s, a);
    forall t | 0 <= t < |Do(s, a).threads| ensures LogOk(t, Do(s, a).threads[t], Do(s, a).history) {
      StepLog(s, a, t);
    }
  }

  lemma {:induction false} ReachableInv(n: nat, junk: seq<int>, actions: seq<Action>, s: State)
    requires |junk| == STACK_SIZE && Reaches(Init(n, junk), actions, s)
    ensures Inv(s)
    decreases |actions|
  {
    if actions != [] {
      var k := |actions| - 1;
      var r :| Reaches(Init(n, junk), actions[..k], r) && Enabled(r, actions[k]) && s == Do(r, actions[k]);
      ReachableInv(n, junk, actions[..k], r);
      StepInv(r, actions[k]);
    }
  }

  /** In every run, with any wakeups: the index stays in the buffer; the operations, in the
      order of their critical sections, are a run of a bounded LIFO stack; that run has the
      calls of each thread in the order in which they returned and with what they returned;
      and everything pushed is popped or still on the stack, once. */
  lemma RunsAreStackRuns(n: nat, junk: seq<int>, actions: seq<Action>, s: State)
    requires |junk| == STACK_SIZE && Reaches(Init(n, junk), actions, s)
    ensures !s.fault && 0 <= s.index <= STACK_SIZE == |s.buffer|
    ensures Replay(s.history).Some?
    ensures PushedIn(s.history) == PoppedIn(s.history) + multiset(Replay(s.history).value)
    ensures forall t :: 0 <= t < |s.threads| ==> s.threads[t].log <= Of(t, s.history)
    ensures s.owner == None ==>
              && s.signals == |s.history|
              && Replay(s.history) == Some(s.buffer[..s.index])
              && forall t :: 0 <= t < |s.threads| ==> s.threads[t].log == Of(t, s.history)
  {
    ReachableInv(n, junk, actions, s);
    LegalConserves(s.history);
    forall t | 0 <= t < |s.threads|
      ensures s.threads[t].log <= Of(t, s.history)
      ensures s.owner == None ==> s.threads[t].log == Of(t, s.history)
    {
      assert LogOk(t, s.threads[t], s.history);
      assert Holds(s.threads[t].place) <==> s.owner == Some(t);
    }
  }

  /** In every run, a thread that tests goes to wait exactly when the stack is full, for
      push(), or empty, for pop(). */
  lemma WaitsExactly(n: nat, junk: seq<int>, actions: seq<Action>, s: State, t: nat)
    requires |junk| == STACK_SIZE && Reaches(Init(n, junk), actions, s)
    requires t < |s.threads| && s.threads[t].place == Testing
    ensures Enabled(s, Step(t)) && Replay(s.history).Some?
    ensures var stack, next := Replay(s.history).value, Do(s, Step(t)).threads[t].place;
            if s.threads[t].op.Push? then next == if |stack| == STACK_SIZE then Waiting else Storing
            else next == if stack == [] then Waiting else Dropping
  {
    ReachableInv(n, junk, actions, s);
    assert Holds(s.threads[t].place) <==> s.owner == Some(t);
  }

  /** Something other than a new call or a wakeup that nobody sent can happen. */
  ghost predicate Moves(s: State) {
    exists a :: Enabled(s, a) && !a.Invoke? && !a.Wake?
  }

  predicate Asleep(s: State) {
    s.owner == None && forall t :: 0 <= t < |s.threads| ==> s.threads[t].place == Out || s.threads[t].place == Waiting
  }

  /** In every run, the threads come to a stop only where each has returned or waits. */
  lemma OnlyWaitingStops(n: nat, junk: seq<int>, actions: seq<Action>, s: State)
    requires |junk| == STACK_SIZE && Reaches(Init(n, junk), actions, s)
    ensures !Moves(s) <==> Asleep(s)
  {
    ReachableInv(n, junk, actions, s);
    if !Asleep(s) {
      if s.owner.Some? {
        OwnerMoves(s, s.owner.value);
      } else {
        var t :| 0 <= t < |s.threads| && s.threads[t].place != Out && s.threads[t].place != Waiting;
        assert Holds(s.threads[t].place) <==> s.owner == Some(t);
        assert Enabled(s, Lock(t));
      }
    }
  }

  lemma OwnerMoves(s: State, t: nat)
    requires LockOk(s) && DataOk(s) && s.owner == Some(t)
    ensures Moves(s)
  {
    assert Holds(s.threads[t].place);
    if s.threads[t].place == Signalling {
      if w: nat :| Waits(s.threads, w) {
        assert Enabled(s, Signal(t, Some(w)));
      } else {
        assert Enabled(s, Signal(t, None));
      }
    } else {
      assert Enabled(s, Step(t));
    }
  }
}
