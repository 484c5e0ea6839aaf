/** Wakeups that go to the wrong thread, in `quiz/quiz3/stack.c`: from six threads on, and
    not before, all can end up asleep although one of them could go on. */
module StackWakeups {
  import opened Options
  import opened BoundedStack

  /** What a thread is up to: nothing that still has an effect, a push() or pop() on its way,
      or one that waits. */
  datatype Role = Idle | Wants(push: bool) | Sleeps(push: bool)

  function RoleOf(th: Thread): Role {
    match th.place
    case Out => Idle
    case Unlocking => Idle
    case Waiting => Sleeps(th.op.Push?)
    case _ => Wants(th.op.Push?)
  }

  function Roles(threads: seq<Thread>): (rs: seq<Role>)
    ensures |rs| == |threads| && forall t :: 0 <= t < |rs| ==> rs[t] == RoleOf(threads[t])
  {
    seq(|threads|, t requires 0 <= t < |threads| => RoleOf(threads[t]))
  }

  /** A waiting thread whose test would let it go on. */
  predicate CouldGo(s: State, t: nat) {
    t < |s.threads| && s.threads[t].place == Waiting
    && if s.threads[t].op.Push? then s.index < STACK_SIZE else s.index > 0
  }

  /** Everything has come to a stop, but not for want of room or of elements. */
  ghost predicate Stranded(s: State) {
    Asleep(s) && exists t: nat :: CouldGo(s, t)
  }

  // ---------------------------------------------------------------- counting roles

  function Count(rs: seq<Role>, r: Role): nat {
    if rs == [] then 0 else (if rs[0] == r then 1 else 0) + Count(rs[1..], r)
  }

  lemma {:induction false} CountUpdate(rs: seq<Role>, t: nat, to: Role, r: Role)
    requires t < |rs|
    ensures Count(rs[t := to], r) + (if rs[t] == r then 1 else 0) == Count(rs, r) + (if to == r then 1 else 0)
  {
    if t > 0 {
      assert rs[t := to][1..] == rs[1..][t - 1 := to];
      CountUpdate(rs[1..], t - 1, to, r);
    }
  }

  lemma {:induction false} CountSum(rs: seq<Role>)
    ensures Count(rs, Sleeps(true)) + Count(rs, Sleeps(false)) + Count(rs, Wants(true)) + Count(rs, Wants(false)) <= |rs|
  {
    if rs != [] { CountSum(rs[1..]); }
  }

  lemma {:induction false} CountIsPresence(rs: seq<Role>, r: Role)
    ensures Count(rs, r) > 0 <==> r in rs
  {
    if rs != [] { CountIsPresence(rs[1..], r); }
  }

  // ---------------------------------------------------------------- at most five threads

  /** The index as it was before the operation that is under way, until it has signalled. */
  function Level(s: State): int {
    match s.owner
    case None => s.index
    case Some(t) =>
      if t >= |s.threads| then s.index
      else
        match s.threads[t].place
        case Reading => s.index + 1
        case Signalling => if s.threads[t].op.Push? then s.index - 1 else s.index + 1
        case _ => s.index
  }

  /** The wakeups under way suffice for those who wait: `sp` and `sc` count the waiting
      push() and pop() calls, `wp` and `wc` those on their way, at `level`. */
  predicate Enough(level: int, sp: nat, sc: nat, wp: nat, wc: nat) {
    && (sc > 0 && sp == 0 ==> level <= wc || (level == 1 && sc == 1 && wp >= 3))
    && (sp > 0 && sc == 0 ==> STACK_SIZE <= level + wp || (level == 2 && sp == 1 && wc >= 3))
    && (sp > 0 && sc > 0 ==> (level == 0 && wp >= 3) || (level == STACK_SIZE && wc >= 3))
  }

  predicate EnoughFor(level: int, rs: seq<Role>) {
    Enough(level, Count(rs, Sleeps(true)), Count(rs, Sleeps(false)), Count(rs, Wants(true)), Count(rs, Wants(false)))
  }

  /** A thread starts, or is woken. */
  lemma BecomesActive(level: int, rs: seq<Role>, t: nat, push: bool)
    requires |rs| <= 5 && t < |rs| && EnoughFor(level, rs) && (rs[t] == Idle || rs[t] == Sleeps(push))
    ensures EnoughFor(level, rs[t := Wants(push)])
  {
    Counts(rs, t, Wants(push));
    CountSum(rs);
    CountSum(rs[t := Wants(push)]);
  }

  lemma Counts(rs: seq<Role>, t: nat, to: Role)
    requires t < |rs|
    ensures forall r :: Count(rs[t := to], r) + (if rs[t] == r then 1 else 0) == Count(rs, r) + (if to == r then 1 else 0)
  {
    forall r ensures Count(rs[t := to], r) + (if rs[t] == r then 1 else 0) == Count(rs, r) + (if to == r then 1 else 0) {
      CountUpdate(rs, t, to, r);
    }
  }

  /** A push() finds the stack full, or a pop() finds it empty. */
  lemma GoesToSleep(level: int, rs: seq<Role>, t: nat, push: bool)
    requires |rs| <= 5 && t < |rs| && EnoughFor(level, rs) && rs[t] == Wants(push)
    requires level == if push then STACK_SIZE else 0
    ensures EnoughFor(level, rs[t := Sleeps(push)])
  {
    Counts(rs, t, Sleeps(push));
    CountSum(rs);
  }

  /** An operation is done and wakes a thread, which must be any that waits. */
  lemma DoneWakes(level: int, rs: seq<Role>, t: nat, push: bool, u: nat, wakesPush: bool)
    requires |rs| <= 5 && t < |rs| && u < |rs| && EnoughFor(level, rs) && 0 <= level <= STACK_SIZE
    requires rs[t] == Wants(push) && rs[u] == Sleeps(wakesPush) && level != if push then STACK_SIZE else 0
    ensures EnoughFor(if push then level + 1 else level - 1, rs[t := Idle][u := Wants(wakesPush)])
  {
    Counts(rs, t, Idle);
    Counts(rs[t := Idle], u, Wants(wakesPush));
    CountSum(rs);
  }

  lemma DoneAlone(level: int, rs: seq<Role>, t: nat)
    requires t < |rs| && forall u :: 0 <= u < |rs| ==> !rs[u].Sleeps?
    ensures EnoughFor(level, rs[t := Idle])
  {
    CountIsPresence(rs[t := Idle], Sleeps(true));
    CountIsPresence(rs[t := Idle], Sleeps(false));
  }

  lemma RolesUpdate(threads: seq<Thread>, t: nat, th: Thread)
    requires t < |threads|
    ensures Roles(threads[t := th]) == Roles(threads)[t := RoleOf(th)]
  {
  }

  /** What the invariant of the stack says of the thread that has the mutex. */
  lemma OwnerAt(s: State, t: nat)
    requires Inv(s) && t < |s.threads| && Holds(s.threads[t].place)
    ensures s.owner == Some(t) && 0 <= s.index <= STACK_SIZE == |s.buffer|
    ensures var th := s.threads[t];
            && (th.place == Storing || th.place == Counting ==> th.op.Push? && s.index < STACK_SIZE)
            && (th.place == Dropping || th.place == Reading ==> th.op.Pop?)
            && (th.place == Dropping ==> s.index > 0)
            && (th.place == Reading ==> s.index < STACK_SIZE)
            && (th.place == Signalling ==> if th.op.Push? then s.index > 0 else s.index < STACK_SIZE)
  {
    assert Holds(s.threads[t].place) <==> s.owner == Some(t);
  }

  lemma SignalRoles(s: State, t: nat, w: nat)
    requires Enabled(s, Signal(t, Some(w))) && w != t
    ensures var s' := Do(s, Signal(t, Some(w)));
            Roles(s'.threads) == Roles(s.threads)[t := Idle][w := Wants(s.threads[w].op.Push?)]
  {
    var th, woken := s.threads[t].(place := Unlocking), s.threads[w].(place := Relocking);
    RolesUpdate(s.threads, t, th);
    RolesUpdate(s.threads[t := th], w, woken);
  }

  lemma SignalKeeps(s: State, t: nat, w: nat)
    requires Inv(s) && Enabled(s, Signal(t, Some(w)))
    requires |s.threads| <= 5 && EnoughFor(Level(s), Roles(s.threads))
    ensures var s' := Do(s, Signal(t, Some(w))); EnoughFor(Level(s'), Roles(s'.threads))
  {
    OwnerAt(s, t);
    SignalRoles(s, t, w);
    DoneWakes(Level(s), Roles(s.threads), t, s.threads[t].op.Push?, w, s.threads[w].op.Push?);
  }

  lemma SignalToNobodyKeeps(s: State, t: nat)
    requires Inv(s) && Enabled(s, Signal(t, None))
    ensures var s' := Do(s, Signal(t, None)); EnoughFor(Level(s'), Roles(s'.threads))
  {
    OwnerAt(s, t);
    var rs := Roles(s.threads);
    RolesUpdate(s.threads, t, s.threads[t].(place := Unlocking));
    forall u | 0 <= u < |rs| ensures !rs[u].Sleeps? { assert !Waits(s.threads, u); }
    DoneAlone(s.index, rs, t);
  }

  lemma StepKeeps(s: State, t: nat)
    requires Inv(s) && Enabled(s, Step(t)) && |s.threads| <= 5 && EnoughFor(Level(s), Roles(s.threads))
    ensures var s' := Do(s, Step(t)); EnoughFor(Level(s'), Roles(s'.threads))
  {
    OwnerAt(s, t);
    var rs, th := Roles(s.threads), s.threads[t];
    if th.place == Testing && s.index == if th.op.Push? then STACK_SIZE else 0 {
      RolesUpdate(s.threads, t, th.(place := Waiting));
      GoesToSleep(s.index, rs, t, th.op.Push?);
    } else {
      SameRole(s, t);
    }
  }

  lemma SameRole(s: State, t: nat)
    requires Inv(s) && Enabled(s, Step(t)) && Do(s, Step(t)).threads[t].place != Waiting
    ensures Level(Do(s, Step(t))) == Level(s) && Roles(Do(s, Step(t)).threads) == Roles(s.threads)
  {
    OwnerAt(s, t);
    var th' := Do(s, Step(t)).threads[t];
    RolesUpdate(s.threads, t, th');
    assert RoleOf(th') == Roles(s.threads)[t];
  }

  lemma LockKeeps(s: State, t: nat)
    requires Inv(s) && Enabled(s, Lock(t)) && EnoughFor(Level(s), Roles(s.threads))
    ensures var s' := Do(s, Lock(t)); EnoughFor(Level(s'), Roles(s'.threads))
  {
    RolesUpdate(s.threads, t, s.threads[t].(place := Testing));
    assert Roles(s.threads)[t := Wants(s.threads[t].op.Push?)] == Roles(s.threads);
  }

  lemma StartKeeps(s: State, a: Action)
    requires Inv(s) && Enabled(s, a) && (a.Invoke? || a.Wake?)
    requires |s.threads| <= 5 && EnoughFor(Level(s), Roles(s.threads))
    ensures EnoughFor(Level(Do(s, a)), Roles(Do(s, a).threads))
  {
    var th := s.threads[a.t];
    var th' := if a.Invoke? then th.(place := Locking, op := a.op) else th.(place := Relocking);
    assert Holds(th.place) <==> s.owner == Some(a.t);
    BecomesWant(s, a.t, th');
  }

  lemma BecomesWant(s: State, t: nat, th: Thread)
    requires t < |s.threads| <= 5 && s.owner != Some(t) && EnoughFor(Level(s), Roles(s.threads))
    requires RoleOf(th) == Wants(th.op.Push?)
    requires RoleOf(s.threads[t]) == Idle || RoleOf(s.threads[t]) == Sleeps(th.op.Push?)
    ensures var s' := s.(threads := s.threads[t := th]); EnoughFor(Level(s'), Roles(s'.threads))
  {
    RolesUpdate(s.threads, t, th);
    BecomesActive(Level(s), Roles(s.threads), t, th.op.Push?);
  }

  lemma ActionKeeps(s: State, a: Action)
    requires Inv(s) && Enabled(s, a) && |s.threads| <= 5 && EnoughFor(Level(s), Roles(s.threads))
    ensures EnoughFor(Level(Do(s, a)), Roles(Do(s, a).threads)) && |Do(s, a).threads| == |s.threads|
  {
    match a
    case Signal(t, woken) =>
      if woken.Some? { SignalKeeps(s, t, woken.value); } else { SignalToNobodyKeeps(s, t); }
    case Step(t) => StepKeeps(s, t);
    case Lock(t) => LockKeeps(s, t);
    case _ => StartKeeps(s, a);
  }

  lemma {:induction false} FewKeepEnough(n: nat, junk: seq<int>, actions: seq<Action>, s: State)
    requires n <= 5 && |junk| == STACK_SIZE && Reaches(Init(n, junk), actions, s)
    ensures |s.threads| == n && EnoughFor(Level(s), Roles(s.threads))
    decreases |actions|
  {
    if actions == [] {
      CountIsPresence(Roles(s.threads), Sleeps(true));
      CountIsPresence(Roles(s.threads), Sleeps(false));
    } else {
      var k := |actions| - 1;
      var r :| Reaches(Init(n, junk), actions[..k], r) && Enabled(r, actions[k]) && s == Do(r, actions[k]);
      FewKeepEnough(n, junk, actions[..k], r);
      ReachableInv(n, junk, actions[..k], r);
      ActionKeeps(r, actions[k]);
    }
  }

  lemma FewAreNotStranded(n: nat, junk: seq<int>, actions: seq<Action>, s: State)
    requires n <= 5 && |junk| == STACK_SIZE && Reaches(Init(n, junk), actions, s)
    ensures !Stranded(s)
  {
    FewKeepEnough(n, junk, actions, s);
    forall t: nat | Asleep(s) ensures !CouldGo(s, t) {
      if t < |s.threads| && s.threads[t].place == Waiting {
        AsleepCounts(s);
        CountIsPresence(Roles(s.threads), RoleOf(s.threads[t]));
        assert Roles(s.threads)[t] == Sleeps(s.threads[t].op.Push?);
      }
    }
  }

  lemma AsleepCounts(s: State)
    requires Asleep(s)
    ensures Count(Roles(s.threads), Wants(true)) == Count(Roles(s.threads), Wants(false)) == 0
  {
    CountIsPresence(Roles(s.threads), Wants(true));
    CountIsPresence(Roles(s.threads), Wants(false));
  }

  // ---------------------------------------------------------------- six threads

  /** The first threads have the roles `rs`, the others have not called. */
  function Padded(rs: seq<Role>, n: nat): seq<Role> {
    rs + seq(if n > |rs| then n - |rs| else 0, _ => Idle)
  }

  lemma PaddedUpdate(rs: seq<Role>, n: nat, t: nat, r: Role)
    requires t < |rs|
    ensures Padded(rs[t := r], n) == Padded(rs, n)[t := r]
  {
  }

  /** A run has led to a state in which `owner` has the mutex, if anyone, the index is `index`,
      and the first six of at least six threads have the roles `rs`. */
  ghost predicate Leads(n: nat, junk: seq<int>, owner: Option<nat>, index: int, rs: seq<Role>,
                        actions: seq<Action>, s: State)
  {
    && |junk| == STACK_SIZE && n >= 6 == |rs| && Reaches(Init(n, junk), actions, s)
    && s.owner == owner && s.index == index && Roles(s.threads) == Padded(rs, n)
  }

  ghost predicate Can(n: nat, junk: seq<int>, index: int, rs: seq<Role>) {
    exists actions, s :: Leads(n, junk, None, index, rs, actions, s)
  }

  /** The same, with thread `t` at `place` in push() or pop(), as the owner of the mutex. */
  ghost predicate At(s: State, t: nat, place: Place, push: bool) {
    t < |s.threads| && s.threads[t].place == place && s.threads[t].op.Push? == push
  }

  ghost predicate CanHold(n: nat, junk: seq<int>, index: int, rs: seq<Role>, t: nat, place: Place, push: bool) {
    exists actions, s :: Leads(n, junk, Some(t), index, rs, actions, s) && At(s, t, place, push)
  }

  lemma Go(s0: State, actions: seq<Action>, s: State, a: Action)
    requires Reaches(s0, actions, s) && Enabled(s, a)
    ensures Reaches(s0, actions + [a], Do(s, a))
  {
    assert (actions + [a])[..|actions|] == actions;
  }

  lemma LedState(n: nat, junk: seq<int>, owner: Option<nat>, index: int, rs: seq<Role>, actions: seq<Action>,
                 s: State, t: nat)
    requires Leads(n, junk, owner, index, rs, actions, s) && t < |rs|
    ensures Inv(s) && |s.threads| == n && RoleOf(s.threads[t]) == rs[t]
    ensures owner != Some(t) ==>
              match rs[t]
              case Idle => s.threads[t].place == Out
              case Wants(_) => s.threads[t].place == Locking || s.threads[t].place == Relocking
              case Sleeps(_) => s.threads[t].place == Waiting
  {
    ReachableInv(n, junk, actions, s);
    assert |Roles(s.threads)| == n && Roles(s.threads)[t] == Padded(rs, n)[t] == rs[t];
    assert Holds(s.threads[t].place) <==> s.owner == Some(t);
  }

  /** One more step, in which thread `t` becomes `th`. */
  lemma Further(n: nat, junk: seq<int>, owner: Option<nat>, index: int, rs: seq<Role>, actions: seq<Action>,
                s: State, a: Action, t: nat, th: Thread)
    requires Leads(n, junk, owner, index, rs, actions, s) && Enabled(s, a)
    requires t < |rs| && t < |s.threads| && Do(s, a).threads == s.threads[t := th]
    ensures Leads(n, junk, Do(s, a).owner, Do(s, a).index, rs[t := RoleOf(th)], actions + [a], Do(s, a))
  {
    Go(Init(n, junk), actions, s, a);
    RolesUpdate(s.threads, t, th);
    PaddedUpdate(rs, n, t, RoleOf(th));
  }

  lemma Call(n: nat, junk: seq<int>, index: int, rs: seq<Role>, t: nat, push: bool)
    requires Can(n, junk, index, rs) && t < |rs| && rs[t] == Idle
    ensures Can(n, junk, index, rs[t := Wants(push)])
  {
    var actions, s :| Leads(n, junk, None, index, rs, actions, s);
    LedState(n, junk, None, index, rs, actions, s, t);
    var op := if push then Push(0) else Pop;
    Further(n, junk, None, index, rs, actions, s, Invoke(t, op), t, s.threads[t].(place := Locking, op := op));
  }

  lemma Enter(n: nat, junk: seq<int>, index: int, rs: seq<Role>, t: nat, push: bool)
    requires Can(n, junk, index, rs) && t < |rs| && rs[t] == Wants(push)
    ensures CanHold(n, junk, index, rs, t, Testing, push)
  {
    var actions, s :| Leads(n, junk, None, index, rs, actions, s);
    LedState(n, junk, None, index, rs, actions, s, t);
    Further(n, junk, None, index, rs, actions, s, Lock(t), t, s.threads[t].(place := Testing));
    assert rs[t := Wants(push)] == rs;
    assert At(Do(s, Lock(t)), t, Testing, push);
  }

  /** What the thread with the mutex does next, and the index after it. */
  function Onward(place: Place, push: bool, index: int): (Place, int) {
    match place
    case Testing => (if push then Storing else Dropping, index)
    case Storing => (Counting, index)
    case Counting => (Signalling, index + 1)
    case Dropping => (Reading, index - 1)
    case _ => (Signalling, index)
  }

  lemma StepsOnward(s: State, t: nat)
    requires Inv(s) && Enabled(s, Step(t)) && s.threads[t].place != Unlocking
    requires s.threads[t].place == Testing ==> s.index != if s.threads[t].op.Push? then STACK_SIZE else 0
    ensures var th, s' := s.threads[t], Do(s, Step(t));
            var (place', index') := Onward(th.place, th.op.Push?, s.index);
            && s'.owner == Some(t) && s'.index == index'
            && s'.threads == s.threads[t := s'.threads[t]]
            && s'.threads[t].place == place' && s'.threads[t].op == th.op
  {
    OwnerAt(s, t);
  }

  lemma GoOn(n: nat, junk: seq<int>, index: int, rs: seq<Role>, t: nat, place: Place, push: bool)
    requires CanHold(n, junk, index, rs, t, place, push) && t < |rs|
    requires place == Storing || place == Counting || place == Dropping || place == Reading
             || (place == Testing && index != if push then STACK_SIZE else 0)
    ensures CanHold(n, junk, Onward(place, push, index).1, rs, t, Onward(place, push, index).0, push)
  {
    var actions, s :| Leads(n, junk, Some(t), index, rs, actions, s) && At(s, t, place, push);
    LedState(n, junk, Some(t), index, rs, actions, s, t);
    StepsOnward(s, t);
    var s' := Do(s, Step(t));
    Further(n, junk, Some(t), index, rs, actions, s, Step(t), t, s'.threads[t]);
    assert rs[t := RoleOf(s'.threads[t])] == rs;
    var (place', index') := Onward(place, push, index);
    assert Leads(n, junk, Some(t), index', rs, actions + [Step(t)], s') && At(s', t, place', push);
  }

  /** The thread signals: it wakes `w`, which waits. */
  lemma Wakes(n: nat, junk: seq<int>, index: int, rs: seq<Role>, t: nat, push: bool, w: nat)
    requires CanHold(n, junk, index, rs, t, Signalling, push)
    requires t < |rs| && w < |rs| && w != t && rs[w].Sleeps?
    ensures CanHold(n, junk, index, rs[t := Idle][w := Wants(rs[w].push)], t, Unlocking, push)
  {
    var actions, s :| Leads(n, junk, Some(t), index, rs, actions, s) && At(s, t, Signalling, push);
    LedState(n, junk, Some(t), index, rs, actions, s, t);
    LedState(n, junk, Some(t), index, rs, actions, s, w);
    var a := Signal(t, Some(w));
    Go(Init(n, junk), actions, s, a);
    SignalRoles(s, t, w);
    PaddedUpdate(rs, n, t, Idle);
    PaddedUpdate(rs[t := Idle], n, w, Wants(rs[w].push));
    assert Leads(n, junk, Some(t), index, rs[t := Idle][w := Wants(rs[w].push)], actions + [a], Do(s, a));
    assert At(Do(s, a), t, Unlocking, push);
  }

  lemma Leave(n: nat, junk: seq<int>, index: int, rs: seq<Role>, t: nat, push: bool)
    requires CanHold(n, junk, index, rs, t, Unlocking, push) && t < |rs|
    ensures Can(n, junk, index, rs)
  {
    var actions, s :| Leads(n, junk, Some(t), index, rs, actions, s) && At(s, t, Unlocking, push);
    LedState(n, junk, Some(t), index, rs, actions, s, t);
    var th := s.threads[t].(place := Out, log := s.threads[t].log + [Record(s.threads[t])]);
    Further(n, junk, Some(t), index, rs, actions, s, Step(t), t, th);
    assert rs[t := RoleOf(th)] == rs;
    assert Leads(n, junk, None, index, rs, actions + [Step(t)], Do(s, Step(t)));
  }

  lemma FallAsleep(n: nat, junk: seq<int>, index: int, rs: seq<Role>, t: nat, push: bool)
    requires CanHold(n, junk, index, rs, t, Testing, push) && t < |rs| && index == if push then STACK_SIZE else 0
    ensures Can(n, junk, index, rs[t := Sleeps(push)])
  {
    var actions, s :| Leads(n, junk, Some(t), index, rs, actions, s) && At(s, t, Testing, push);
    LedState(n, junk, Some(t), index, rs, actions, s, t);
    Further(n, junk, Some(t), index, rs, actions, s, Step(t), t, s.threads[t].(place := Waiting));
  }

  /** A push() that finds the stack full, or a pop() that finds it empty. */
  lemma Sleep(n: nat, junk: seq<int>, index: int, rs: seq<Role>, t: nat, after: seq<Role>)
    requires Can(n, junk, index, rs) && t < |rs| == 6 && rs[t].Wants?
    requires index == if rs[t].push then STACK_SIZE else 0
    requires after == rs[t := Sleeps(rs[t].push)]
    ensures Can(n, junk, index, after)
  {
    Enter(n, junk, index, rs, t, rs[t].push);
    FallAsleep(n, junk, index, rs, t, rs[t].push);
  }

  lemma Pushes(n: nat, junk: seq<int>, index: int, rs: seq<Role>, t: nat)
    requires CanHold(n, junk, index, rs, t, Storing, true) && t < |rs|
    ensures CanHold(n, junk, index + 1, rs, t, Signalling, true)
  {
    GoOn(n, junk, index, rs, t, Storing, true);
    GoOn(n, junk, index, rs, t, Counting, true);
  }

  lemma Pops(n: nat, junk: seq<int>, index: int, rs: seq<Role>, t: nat)
    requires CanHold(n, junk, index, rs, t, Dropping, false) && t < |rs|
    ensures CanHold(n, junk, index - 1, rs, t, Signalling, false)
  {
    GoOn(n, junk, index, rs, t, Dropping, false);
    GoOn(n, junk, index - 1, rs, t, Reading, false);
  }

  /** An operation from start to end, which wakes thread `w`. */
  lemma Finish(n: nat, junk: seq<int>, index: int, rs: seq<Role>, t: nat, w: nat, after: seq<Role>)
    requires Can(n, junk, index, rs) && t < |rs| == 6 && rs[t].Wants? && w < 6 && rs[w].Sleeps?
    requires index != if rs[t].push then STACK_SIZE else 0
    requires after == rs[t := Idle][w := Wants(rs[w].push)]
    ensures Can(n, junk, if rs[t].push then index + 1 else index - 1, after)
  {
    var push := rs[t].push;
    var index' := if push then index + 1 else index - 1;
    Enter(n, junk, index, rs, t, push);
    GoOn(n, junk, index, rs, t, Testing, push);
    if push { Pushes(n, junk, index, rs, t); } else { Pops(n, junk, index, rs, t); }
    Wakes(n, junk, index', rs, t, push, w);
    Leave(n, junk, index', after, t, push);
  }

  /** A thread that is not in a call pushes at once. */
  lemma PushAnother(n: nat, junk: seq<int>, index: int, rs: seq<Role>, t: nat, w: nat, after: seq<Role>)
    requires Can(n, junk, index, rs) && t < |rs| == 6 && rs[t] == Idle && w < 6 && rs[w].Sleeps? && index < STACK_SIZE
    requires after == rs[w := Wants(rs[w].push)]
    ensures Can(n, junk, index + 1, after)
  {
    Call(n, junk, index, rs, t, true);
    Finish(n, junk, index, rs[t := Wants(true)], t, w, after);
  }

  lemma CallAndSleep(n: nat, junk: seq<int>, index: int, rs: seq<Role>, t: nat, push: bool, after: seq<Role>)
    requires Can(n, junk, index, rs) && t < |rs| == 6 && rs[t] == Idle && index == if push then STACK_SIZE else 0
    requires after == rs[t := Sleeps(push)]
    ensures Can(n, junk, index, after)
  {
    Call(n, junk, index, rs, t, push);
    Sleep(n, junk, index, rs[t := Wants(push)], t, after);
  }

  lemma Starts(n: nat, junk: seq<int>)
    requires n >= 6 && |junk| == STACK_SIZE
    ensures Can(n, junk, 0, [Idle, Idle, Idle, Idle, Idle, Idle])
  {
    assert Leads(n, junk, None, 0, [Idle, Idle, Idle, Idle, Idle, Idle], [], Init(n, junk));
  }

  /** Four pop() calls find the stack empty. */
  lemma PopsWait(n: nat, junk: seq<int>)
    requires n >= 6 && |junk| == STACK_SIZE
    ensures Can(n, junk, 0, [Idle, Idle, Sleeps(false), Sleeps(false), Sleeps(false), Sleeps(false)])
  {
    var i, z := Idle, Sleeps(false);
    Starts(n, junk);
    CallAndSleep(n, junk, 0, [i, i, i, i, i, i], 2, false, [i, i, z, i, i, i]);
    CallAndSleep(n, junk, 0, [i, i, z, i, i, i], 3, false, [i, i, z, z, i, i]);
    CallAndSleep(n, junk, 0, [i, i, z, z, i, i], 4, false, [i, i, z, z, z, i]);
    CallAndSleep(n, junk, 0, [i, i, z, z, z, i], 5, false, [i, i, z, z, z, z]);
  }

  /** Three push() calls of thread 0 wake three of them and fill the stack. */
  lemma PushesWakePops(n: nat, junk: seq<int>)
    requires n >= 6 && |junk| == STACK_SIZE
    ensures Can(n, junk, 3, [Idle, Idle, Wants(false), Wants(false), Wants(false), Sleeps(false)])
  {
    var i, c, z := Idle, Wants(false), Sleeps(false);
    PopsWait(n, junk);
    PushAnother(n, junk, 0, [i, i, z, z, z, z], 0, 2, [i, i, c, z, z, z]);
    PushAnother(n, junk, 1, [i, i, c, z, z, z], 0, 3, [i, i, c, c, z, z]);
    PushAnother(n, junk, 2, [i, i, c, c, z, z], 0, 4, [i, i, c, c, c, z]);
  }

  /** Before those three run, threads 0 and 1 push too and wait. */
  lemma PushesWait(n: nat, junk: seq<int>)
    requires n >= 6 && |junk| == STACK_SIZE
    ensures Can(n, junk, 3, [Sleeps(true), Sleeps(true), Wants(false), Wants(false), Wants(false), Sleeps(false)])
  {
    var i, c, z, y := Idle, Wants(false), Sleeps(false), Sleeps(true);
    PushesWakePops(n, junk);
    CallAndSleep(n, junk, 3, [i, i, c, c, c, z], 0, true, [y, i, c, c, c, z]);
    CallAndSleep(n, junk, 3, [y, i, c, c, c, z], 1, true, [y, y, c, c, c, z]);
  }

  /** The first pop() wakes a push(), which fills the stack again and wakes another push(). */
  lemma FirstPop(n: nat, junk: seq<int>)
    requires n >= 6 && |junk| == STACK_SIZE
    ensures Can(n, junk, 3, [Idle, Wants(true), Idle, Wants(false), Wants(false), Sleeps(false)])
  {
    var i, p, c, z, y := Idle, Wants(true), Wants(false), Sleeps(false), Sleeps(true);
    PushesWait(n, junk);
    Finish(n, junk, 3, [y, y, c, c, c, z], 2, 0, [p, y, i, c, c, z]);
    Finish(n, junk, 2, [p, y, i, c, c, z], 0, 1, [i, p, i, c, c, z]);
  }

  /** That one finds the stack full, as do two more. */
  lemma ThreePushesWait(n: nat, junk: seq<int>)
    requires n >= 6 && |junk| == STACK_SIZE
    ensures Can(n, junk, 3, [Sleeps(true), Sleeps(true), Sleeps(true), Wants(false), Wants(false), Sleeps(false)])
  {
    var i, p, c, z, y := Idle, Wants(true), Wants(false), Sleeps(false), Sleeps(true);
    FirstPop(n, junk);
    CallAndSleep(n, junk, 3, [i, p, i, c, c, z], 0, true, [y, p, i, c, c, z]);
    Sleep(n, junk, 3, [y, p, i, c, c, z], 1, [y, y, i, c, c, z]);
    CallAndSleep(n, junk, 3, [y, y, i, c, c, z], 2, true, [y, y, y, c, c, z]);
  }

  /** The second pop() wakes a push() in the same way, which wakes another for nothing. */
  lemma SecondPop(n: nat, junk: seq<int>)
    requires n >= 6 && |junk| == STACK_SIZE
    ensures Can(n, junk, 3, [Idle, Sleeps(true), Sleeps(true), Idle, Wants(false), Sleeps(false)])
  {
    var i, p, c, z, y := Idle, Wants(true), Wants(false), Sleeps(false), Sleeps(true);
    ThreePushesWait(n, junk);
    Finish(n, junk, 3, [y, y, y, c, c, z], 3, 0, [p, y, y, i, c, z]);
    Finish(n, junk, 2, [p, y, y, i, c, z], 0, 1, [i, p, y, i, c, z]);
    Sleep(n, junk, 3, [i, p, y, i, c, z], 1, [i, y, y, i, c, z]);
  }

  /** So does the third, and the pop() of thread 5 is never woken. */
  lemma ThirdPop(n: nat, junk: seq<int>)
    requires n >= 6 && |junk| == STACK_SIZE
    ensures Can(n, junk, 3, [Idle, Idle, Sleeps(true), Idle, Idle, Sleeps(false)])
  {
    var i, p, c, z, y := Idle, Wants(true), Wants(false), Sleeps(false), Sleeps(true);
    SecondPop(n, junk);
    Finish(n, junk, 3, [i, y, y, i, c, z], 4, 1, [i, p, y, i, i, z]);
    Finish(n, junk, 2, [i, p, y, i, i, z], 1, 2, [i, i, p, i, i, z]);
    Sleep(n, junk, 3, [i, i, p, i, i, z], 2, [i, i, y, i, i, z]);
  }

  lemma SixCanBeStranded(n: nat, junk: seq<int>) returns (actions: seq<Action>, s: State)
    requires n >= 6 && |junk| == STACK_SIZE
    ensures Reaches(Init(n, junk), actions, s) && Stranded(s)
  {
    ThirdPop(n, junk);
    var rs := [Idle, Idle, Sleeps(true), Idle, Idle, Sleeps(false)];
    actions, s :| Leads(n, junk, None, 3, rs, actions, s);
    ReachableInv(n, junk, actions, s);
    forall t | 0 <= t < |s.threads| ensures s.threads[t].place == Out || s.threads[t].place == Waiting {
      assert Roles(s.threads)[t] == Padded(rs, n)[t];
      assert Holds(s.threads[t].place) <==> s.owner == Some(t);
    }
    LedState(n, junk, None, 3, rs, actions, s, 5);
    assert CouldGo(s, 5);
  }

  ghost predicate CanBeStranded(n: nat, junk: seq<int>)
    requires |junk| == STACK_SIZE
  {
    exists actions, s :: Reaches(Init(n, junk), actions, s) && Stranded(s)
  }

  /** Some run of `n` threads ends with every thread asleep or out and one of the sleepers
      able to go on, if and only if there are at least six threads. */
  lemma StrandedExactly(n: nat, junk: seq<int>)
    requires |junk| == STACK_SIZE
    ensures CanBeStranded(n, junk) <==> n >= 6
  {
    if n >= 6 {
      var actions, s := SixCanBeStranded(n, junk);
    } else if CanBeStranded(n, junk) {
      var actions, s :| Reaches(Init(n, junk), actions, s) && Stranded(s);
      FewAreNotStranded(n, junk, actions, s);
    }
  }
}
