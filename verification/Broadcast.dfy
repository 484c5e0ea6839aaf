/** `homework/hw10/program.c` as a transition system: a parent announces M messages to N
    children in batches of at most B > 0; the children add them up without a lock. */
module Broadcast {
  // Each batch is announced by a SIGUSR1 that can be coalesced or handled late.

  /** A child's SIGUSR1 handler: not running, entered, past its read of the batch size
      (and its loop over the messages), and between the load and the store of the counter. */
  datatype Handler = Idle | Entered | Counted(count: nat) | Loaded(count: nat, value: nat) | Dead

  /** `told`: size of the batches signalled to this child. `taken`: what its handler runs
      read as batch sizes. `added`: what its finished runs meant to add. `dropped`: what a
      signal that found another one pending, a batch size that fell before it was read, or
      the end of the child kept it from counting. */
  datatype Child = Child(pending: bool, term: bool, handler: Handler, told: nat, taken: nat, added: nat, dropped: nat)

  datatype Place = Head | Signalling(i: nat) | Ending(i: nat) | Waiting(i: nat) | Finished

  /** `count0` and `count1` are the shared counters. `raced` records that a store put back a
      value that was no longer that of the counter. */
  datatype State = State(children: seq<Child>, sent: nat, batch: nat, count0: nat, count1: nat,
                         place: Place, raced: bool)

  datatype Action =
    | Batch | Signal | Kill | Collect
    | Enter(c: nat) | ReadBatch(c: nat) | Load(c: nat) | Store(c: nat) | Die(c: nat)

  /** The arguments of the program. */
  datatype Args = Args(M: nat, N: nat, B: nat)

  function Init(args: Args): State {
    State(seq(args.N, _ => Child(false, false, Idle, 0, 0, 0, 0)), 0, 0, 0, args.B, Head, false)
  }

  predicate ByParent(a: Action) { a.Batch? || a.Signal? || a.Kill? || a.Collect? }

  predicate Ready(c: Child, a: Action) {
    match a
    case Enter(_) => c.pending && c.handler == Idle
    case ReadBatch(_) => c.handler == Entered
    case Load(_) => c.handler.Counted?
    case Store(_) => c.handler.Loaded?
    case Die(_) => c.term && c.handler != Dead
    case _ => false
  }

  predicate Enabled(s: State, a: Action) {
    match a
    case Batch => s.place == Head
    case Signal => s.place.Signalling?
    case Kill => s.place.Ending?
    case Collect => s.place.Waiting? && s.place.i < |s.children| && s.children[s.place.i].handler == Dead
    case _ => a.c < |s.children| && Ready(s.children[a.c], a)
  }

  /** What the child can still read for signals it has not answered. */
  function Owed(c: Child, count1: nat): nat {
    if c.handler == Dead then 0
    else (if c.pending then count1 else 0) + (if c.handler == Entered then count1 else 0)
  }

  function InHand(c: Child): nat {
    match c.handler
    case Counted(k) => k
    case Loaded(k, _) => k
    case _ => 0
  }

  /** A step of the child itself, with the shared counters as it finds them. */
  function Own(c: Child, a: Action, count0: nat, count1: nat): Child
    requires Ready(c, a)
  {
    match a
    case Enter(_) => c.(pending := false, handler := Entered)
    case ReadBatch(_) => c.(handler := Counted(count1), taken := c.taken + count1)
    case Load(_) => c.(handler := Loaded(c.handler.count, count0))
    case Store(_) => c.(handler := Idle, added := c.added + c.handler.count)
    case Die(_) => c.(handler := Dead, dropped := c.dropped + Owed(c, count1) + InHand(c))
  }

  function Told(c: Child, batch: nat): Child {
    c.(pending := true, told := c.told + batch, dropped := c.dropped + if c.pending then batch else 0)
  }

  /** What the child can no longer read once the batch size is `now` instead of `was`. */
  function Missed(c: Child, was: nat, now: nat): nat {
    if Owed(c, now) < Owed(c, was) then Owed(c, was) - Owed(c, now) else 0
  }

  function Resized(children: seq<Child>, was: nat, now: nat): seq<Child> {
    seq(|children|, i requires 0 <= i < |children| =>
      children[i].(dropped := children[i].dropped + Missed(children[i], was, now)))
  }

  function NextBatch(s: State, args: Args): State
    requires s.sent < args.M
  {
    var batch := if args.M - s.sent > args.B then args.B else args.M - s.sent;
    var s' := s.(sent := s.sent + batch, batch := batch, place := Signalling(0));
    if batch < args.B then s'.(children := Resized(s.children, s.count1, batch), count1 := batch) else s'
  }

  function ByChild(s: State, a: Action): State
    requires Enabled(s, a) && !ByParent(a)
  {
    s.(children := s.children[a.c := Own(s.children[a.c], a, s.count0, s.count1)])
  }

  function Do(s: State, a: Action, args: Args): State
    requires Enabled(s, a)
  {
    match a
    case Batch =>
      if s.sent < args.M then NextBatch(s, args) else s.(place := Ending(0))
    case Signal =>
      var i := s.place.i;
      if i < |s.children| then
        s.(children := s.children[i := Told(s.children[i], s.batch)], place := Signalling(i + 1))
      else s.(place := Head)
    case Kill =>
      var i := s.place.i;
      if i < |s.children| then
        s.(children := s.children[i := s.children[i].(term := true)], place := Waiting(i))
      else s.(place := Finished)
    case Collect => s.(place := Ending(s.place.i + 1))
    case Enter(_) => ByChild(s, a)
    case ReadBatch(_) => ByChild(s, a)
    case Load(_) => ByChild(s, a)
    case Store(c) =>
      var Loaded(count, value) := s.children[c].handler;
      ByChild(s, a).(count0 := value + count, raced := s.raced || value != s.count0)
    case Die(_) => ByChild(s, a)
  }

  ghost predicate Reaches(s0: State, actions: seq<Action>, s: State, args: Args) {
    if actions == [] then s == s0
    else
      var n := |actions| - 1;
      exists r :: Reaches(s0, actions[..n], r, args) && Enabled(r, actions[n]) && s == Do(r, actions[n], args)
  }

  // ---------------------------------------------------------------- sums over children

  function Total(children: seq<Child>): nat {
    if children == [] then 0 else children[0].added + Total(children[1..])
  }

  function Dropped(children: seq<Child>): nat {
    if children == [] then 0 else children[0].dropped + Dropped(children[1..])
  }

  lemma {:induction false} TotalUpdate(children: seq<Child>, i: nat, c: Child)
    requires i < |children|
    ensures Total(children[i := c]) == Total(children) - children[i].added + c.added
  {
    if i > 0 {
      assert children[i := c][1..] == children[1..][i - 1 := c];
      TotalUpdate(children[1..], i - 1, c);
    }
  }

  lemma {:induction false} TotalSame(children: seq<Child>, others: seq<Child>)
    requires |children| == |others| && forall i :: 0 <= i < |children| ==> children[i].added == others[i].added
    ensures Total(children) == Total(others)
  {
    if children != [] { TotalSame(children[1..], others[1..]); }
  }

  lemma {:induction false} TotalBound(children: seq<Child>, m: nat)
    requires forall i :: 0 <= i < |children| ==> children[i].added <= m
    ensures Total(children) <= m * |children|
  {
    if children != [] { TotalBound(children[1..], m); }
  }

  lemma {:induction false} TotalAndDropped(children: seq<Child>, m: nat)
    requires forall i :: 0 <= i < |children| ==> children[i].added + children[i].dropped == m
    ensures Total(children) + Dropped(children) == m * |children|
  {
    if children != [] { TotalAndDropped(children[1..], m); }
  }

  lemma {:induction false} TotalZero(n: nat)
    ensures Total(seq(n, _ => Child(false, false, Idle, 0, 0, 0, 0))) == 0
  {
    if n > 0 {
      var c := Child(false, false, Idle, 0, 0, 0, 0);
      assert seq(n, _ => c)[1..] == seq(n - 1, _ => c);
      TotalZero(n - 1);
    }
  }

  // ---------------------------------------------------------------- the invariant

  /** Everything a child was told of has been added, is on its way, or was dropped. */
  predicate ChildOk(c: Child, count1: nat) {
    && c.told == c.added + InHand(c) + Owed(c, count1) + c.dropped
    && c.added + InHand(c) <= c.taken && c.taken + Owed(c, count1) <= c.told
    && (c.handler.Counted? || c.handler.Loaded? ==> InHand(c) > 0)
  }

  /** What child `i` has been told of. */
  function ToldAt(i: nat, s: State): int {
    if s.place.Signalling? && s.place.i <= i then s.sent - s.batch else s.sent
  }

  /** The batch being announced is as large as it can be. */
  predicate FullBatch(s: State, args: Args) {
    && s.batch <= s.sent <= args.M
    && s.batch == if args.M - (s.sent - s.batch) > args.B then args.B else args.M - (s.sent - s.batch)
  }

  predicate ParentOk(s: State, args: Args) {
    && s.sent <= args.M
    && 0 < s.count1 <= args.B
    && (s.sent < args.M ==> s.count1 == args.B)
    && (s.place.Signalling? ==> s.batch == s.count1 && FullBatch(s, args))
    && (s.place.Ending? || s.place.Waiting? || s.place.Finished? ==> s.sent == args.M)
    && forall i :: 0 <= i < |s.children| ==> s.children[i].told == ToldAt(i, s)
  }

  /** Only children that have been waited for, or are being killed, have been sent SIGTERM. */
  predicate EndOk(s: State) {
    match s.place
    case Head => forall i :: 0 <= i < |s.children| ==> !s.children[i].term && s.children[i].handler != Dead
    case Signalling(_) => forall i :: 0 <= i < |s.children| ==> !s.children[i].term && s.children[i].handler != Dead
    case Ending(k) => forall i :: 0 <= i < |s.children| && i < k ==> s.children[i].handler == Dead
    case Waiting(k) => forall i :: 0 <= i < |s.children| && i < k ==> s.children[i].handler == Dead
    case Finished => forall i :: 0 <= i < |s.children| ==> s.children[i].handler == Dead
  }

  /** Without a race the counter is what was added; after one it stays below that. */
  predicate CounterOk(s: State) {
    var total := Total(s.children);
    && (if s.raced then s.count0 < total else s.count0 == total)
    && forall i :: 0 <= i < |s.children| && s.children[i].handler.Loaded? ==>
         s.children[i].handler.value <= total && (s.raced ==> s.children[i].handler.value < total)
  }

  predicate ChildrenOk(s: State) {
    forall i :: 0 <= i < |s.children| ==> ChildOk(s.children[i], s.count1)
  }

  predicate Inv(s: State, args: Args) {
    |s.children| == args.N && ParentOk(s, args) && EndOk(s) && ChildrenOk(s) && CounterOk(s)
  }

  // ---------------------------------------------------------------- each step keeps it

  lemma BatchParent(s: State, args: Args)
    requires args.B > 0 && Inv(s, args) && s.place == Head
    ensures |Do(s, Batch, args).children| == args.N && ParentOk(Do(s, Batch, args), args)
  {
  }

  lemma StepParent(s: State, a: Action, args: Args)
    requires args.B > 0 && Inv(s, args) && Enabled(s, a)
    ensures |Do(s, a, args).children| == args.N && ParentOk(Do(s, a, args), args)
  {
    if a.Batch? { BatchParent(s, args); }
  }

  lemma StepEnd(s: State, a: Action, args: Args)
    requires EndOk(s) && Enabled(s, a)
    ensures EndOk(Do(s, a, args))
  {
  }

  lemma ToldOk(c: Child, count1: nat)
    requires ChildOk(c, count1) && c.handler != Dead
    ensures ChildOk(Told(c, count1), count1)
  {
  }

  lemma ResizedOk(c: Child, was: nat, now: nat)
    requires ChildOk(c, was) && 0 < now <= was
    ensures ChildOk(c.(dropped := c.dropped + Missed(c, was, now)), now)
  {
  }

  lemma StepChildrenBatch(s: State, args: Args)
    requires args.B > 0 && Inv(s, args) && s.place == Head
    ensures ChildrenOk(Do(s, Batch, args))
  {
    var s' := Do(s, Batch, args);
    forall i | 0 <= i < |s'.children| ensures ChildOk(s'.children[i], s'.count1) {
      assert ChildOk(s.children[i], s.count1);
      if s'.count1 < s.count1 { ResizedOk(s.children[i], s.count1, s'.count1); }
    }
  }

  lemma StepChildrenSignal(s: State, args: Args)
    requires args.B > 0 && Inv(s, args) && s.place.Signalling?
    ensures ChildrenOk(Do(s, Signal, args))
  {
    if s.place.i < |s.children| { ToldOk(s.children[s.place.i], s.count1); }
  }

  lemma StepChildrenOwn(s: State, a: Action, args: Args)
    requires args.B > 0 && Inv(s, args) && Enabled(s, a) && !ByParent(a)
    ensures ChildrenOk(Do(s, a, args))
  {
    assert Do(s, a, args).children == ByChild(s, a).children;
  }

  lemma StepChildren(s: State, a: Action, args: Args)
    requires args.B > 0 && Inv(s, args) && Enabled(s, a)
    ensures ChildrenOk(Do(s, a, args))
  {
    if !ByParent(a) { StepChildrenOwn(s, a, args); }
    else if a.Batch? { StepChildrenBatch(s, args); }
    else if a.Signal? { StepChildrenSignal(s, args); }
  }

  /** The total of what was added grows by what a store means to add. */
  lemma StepTotal(s: State, a: Action, args: Args)
    requires Enabled(s, a)
    ensures Total(Do(s, a, args).children)
            == Total(s.children) + if a.Store? then s.children[a.c].handler.count else 0
  {
    var s' := Do(s, a, args);
    if ByParent(a) { TotalSame(s.children, s'.children); }
    else { TotalUpdate(s.children, a.c, s'.children[a.c]); }
  }

  /** A store that finds the counter changed leaves it below the total for good. */
  lemma StoreCounter(s: State, c: nat, args: Args)
    requires args.B > 0 && Inv(s, args) && Enabled(s, Store(c))
    ensures CounterOk(Do(s, Store(c), args))
  {
    StepTotal(s, Store(c), args);
    assert ChildOk(s.children[c], s.count1);
  }

  lemma StepCounter(s: State, a: Action, args: Args)
    requires args.B > 0 && Inv(s, args) && Enabled(s, a)
    ensures CounterOk(Do(s, a, args))
  {
    if a.Store? { StoreCounter(s, a.c, args); } else { StepTotal(s, a, args); }
  }

  lemma StepInv(s: State, a: Action, args: Args)
    requires args.B > 0 && Inv(s, args) && Enabled(s, a)
    ensures Inv(Do(s, a, args), args)
  {
    StepParent(s, a, args);
    StepEnd(s, a, args);
    StepChildren(s, a, args);
    StepCounter(s, a, args);
  }

  lemma {:induction false} ReachableInv(args: Args, actions: seq<Action>, s: State)
    requires args.B > 0 && Reaches(Init(args), actions, s, args)
    ensures Inv(s, args)
    decreases |actions|
  {
    if actions == [] {
      TotalZero(args.N);
    } else {
      var n := |actions| - 1;
      var r :| Reaches(Init(args), actions[..n], r, args) && Enabled(r, actions[n]) && s == Do(r, actions[n], args);
      ReachableInv(args, actions[..n], r);
      StepInv(r, actions[n], args);
    }
  }

  // ---------------------------------------------------------------- whole runs

  /** In every run, each batch announced has B messages or all that are left, no child takes
      more than the M messages there are, and the shared counter, with all its lost updates,
      never exceeds M * N. */
  lemma NeverTooMany(args: Args, actions: seq<Action>, s: State)
    requires args.B > 0 && Reaches(Init(args), actions, s, args)
    ensures |s.children| == args.N && (s.place.Signalling? ==> 0 < s.batch && FullBatch(s, args))
    ensures forall i :: 0 <= i < |s.children| ==> s.children[i].added <= s.children[i].taken <= args.M
    ensures s.count0 <= Total(s.children) <= args.M * args.N
  {
    ReachableInv(args, actions, s);
    forall i | 0 <= i < |s.children| ensures s.children[i].added <= s.children[i].taken <= args.M {
      assert ChildOk(s.children[i], s.count1);
      assert s.children[i].told == ToldAt(i, s);
    }
    TotalBound(s.children, args.M);
  }

  lemma {:induction false} DroppedNone(children: seq<Child>)
    ensures Dropped(children) == 0 <==> forall c :: c in children ==> c.dropped == 0
  {
    if children != [] {
      DroppedNone(children[1..]);
      assert forall c :: c in children <==> c == children[0] || c in children[1..];
    }
  }

  /** When the parent ends, what the children added and what they were kept from adding make
      up M * N, and the counter is what they added if no two increments overlapped, and less
      if two did. So exactly M * N is counted if and only if no child was kept from counting
      and no store overwrote another. */
  lemma CountedExactly(args: Args, actions: seq<Action>, s: State)
    requires args.B > 0 && Reaches(Init(args), actions, s, args) && s.place == Finished
    ensures Total(s.children) + Dropped(s.children) == args.M * args.N
    ensures if s.raced then s.count0 < Total(s.children) else s.count0 == Total(s.children)
    ensures s.count0 == args.M * args.N <==> !s.raced && forall c :: c in s.children ==> c.dropped == 0
  {
    ReachableInv(args, actions, s);
    forall i | 0 <= i < |s.children| ensures s.children[i].added + s.children[i].dropped == args.M {
      assert ChildOk(s.children[i], s.count1);
      assert s.children[i].told == ToldAt(i, s);
    }
    TotalAndDropped(s.children, args.M);
    DroppedNone(s.children);
  }
}
