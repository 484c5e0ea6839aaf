/** The namespace forest of `namespaces_of.go`: what the kernel reports, how namespaces
    and their ancestors are recorded, and what the recorded lists mean. */
module Namespaces {
  import opened Options

  datatype NsType = Cgroup | Ipc | Mnt | Net | Pid | Time | User | Uts

  datatype NamespaceID = NamespaceID(device: nat, inode: nat)

  /** The key under which namespaces with an invisible owner are collected. */
  const INVIS_USER_NS := NamespaceID(0, 0)

  datatype NamespaceAttribs = NamespaceAttribs(nsType: NsType, pids: seq<int>, children: seq<NamespaceID>)

  datatype Info = Info(nsList: map<NamespaceID, NamespaceAttribs>, rootNS: NamespaceID)

  /** The kernel's answers: the type of every namespace, and the namespace returned by the
      ioctl() in use (owner or parent); no entry in `up` stands for EPERM. `pidns` is the
      option that selects the PID hierarchy. */
  datatype Kernel = Kernel(nsType: map<NamespaceID, NsType>, up: map<NamespaceID, NamespaceID>, pidns: bool)

  type Rank = NamespaceID -> nat

  /** The topmost visible namespace of the hierarchy. */
  predicate IsTop(k: Kernel, ns: NamespaceID) {
    ns in k.nsType && ns !in k.up && (k.nsType[ns] == User || k.pidns)
  }

  /** Where `ns` is listed: below its parent or owner, or below the invisible entry. */
  function Above(k: Kernel, ns: NamespaceID): Option<NamespaceID> {
    if ns in k.up then Some(k.up[ns])
    else if ns in k.nsType && !IsTop(k, ns) then Some(INVIS_USER_NS)
    else None
  }

  /** Parents exist, there are no cycles, and there is one visible root. */
  ghost predicate KernelOk(k: Kernel, rank: Rank) {
    && INVIS_USER_NS !in k.nsType
    && (forall ns :: ns in k.up ==> ns in k.nsType && k.up[ns] in k.nsType)
    && (forall ns :: Above(k, ns).Some? ==> rank(Above(k, ns).value) < rank(ns))
    && (forall a, b :: IsTop(k, a) && IsTop(k, b) ==> a == b)
  }

  // ---------------------------------------------------------------- recording

  function AppendChild(s: Info, p: NamespaceID, ns: NamespaceID): Info
    requires p in s.nsList
  {
    s.(nsList := s.nsList[p := s.nsList[p].(children := s.nsList[p].children + [ns])])
  }

  function AppendPid(s: Info, ns: NamespaceID, pid: int): Info
    requires ns in s.nsList
  {
    s.(nsList := s.nsList[ns := s.nsList[ns].(pids := s.nsList[ns].pids + [pid])])
  }

  function NewEntry(s: Info, ns: NamespaceID, nsType: NsType): Info {
    s.(nsList := s.nsList[ns := NamespaceAttribs(nsType, [], [])])
  }

  function WithInvisible(s: Info): Info {
    if INVIS_USER_NS in s.nsList then s else NewEntry(s, INVIS_USER_NS, User)
  }

  ghost function AddNamespace(k: Kernel, rank: Rank, s: Info, ns: NamespaceID, pid: int): (r: Info)
    requires KernelOk(k, rank) && ns in k.nsType
    ensures ns in r.nsList && s.nsList.Keys <= r.nsList.Keys
    decreases rank(ns), 1
  {
    var s1 := if ns in s.nsList then s else AddNamespaceToList(k, rank, s, ns);
    if pid > 0 then AppendPid(s1, ns, pid) else s1
  }

  ghost function AddNamespaceToList(k: Kernel, rank: Rank, s: Info, ns: NamespaceID): (r: Info)
    requires KernelOk(k, rank) && ns in k.nsType
    ensures ns in r.nsList && s.nsList.Keys <= r.nsList.Keys
    decreases rank(ns), 0
  {
    var s1 := NewEntry(s, ns, k.nsType[ns]);
    if ns in k.up then
      assert Above(k, ns) == Some(k.up[ns]);
      var s2 := AddNamespace(k, rank, s1, k.up[ns], -1);
      AppendChild(s2, k.up[ns], ns)
    else if k.nsType[ns] == User || k.pidns then s1.(rootNS := ns)
    else AppendChild(WithInvisible(s1), INVIS_USER_NS, ns)
  }

  ghost function AddAll(k: Kernel, rank: Rank, adds: seq<(NamespaceID, int)>): Info
    requires KernelOk(k, rank) && forall a :: a in adds ==> a.0 in k.nsType
  {
    if adds == [] then Info(map[], INVIS_USER_NS)
    else
      var (ns, pid) := adds[|adds|-1];
      AddNamespace(k, rank, AddAll(k, rank, adds[..|adds|-1]), ns, pid)
  }

  // ---------------------------------------------------------------- the forest

  ghost predicate NoDup<T(!new)>(s: seq<T>) {
    forall i, j :: 0 <= i < j < |s| ==> s[i] != s[j]
  }

  ghost predicate Listed(k: Kernel, s: Info, pending: set<NamespaceID>, c: NamespaceID, p: NamespaceID) {
    c in s.nsList && c !in pending && c != INVIS_USER_NS && Above(k, c) == Some(p)
  }

  /** Every recorded namespace outside `pending` is in exactly one list of children, that
      of its parent, owner or the invisible entry, which is recorded too. */
  ghost predicate Forest(k: Kernel, s: Info, pending: set<NamespaceID>) {
    && (forall ns :: ns in s.nsList && ns != INVIS_USER_NS ==>
          ns in k.nsType && s.nsList[ns].nsType == k.nsType[ns])
    && (INVIS_USER_NS in s.nsList ==> s.nsList[INVIS_USER_NS].nsType == User)
    && (forall c, p :: Listed(k, s, pending, c, p) ==> p in s.nsList)
    && (forall p, c :: p in s.nsList ==> (c in s.nsList[p].children <==> Listed(k, s, pending, c, p)))
    && (forall p :: p in s.nsList ==> NoDup(s.nsList[p].children))
    && (forall ns :: ns in s.nsList && ns !in pending && IsTop(k, ns) ==> s.rootNS == ns)
    && (s.rootNS == INVIS_USER_NS || (s.rootNS in s.nsList && IsTop(k, s.rootNS)))
  }

  ghost predicate AllAbove(rank: Rank, pending: set<NamespaceID>, ns: NamespaceID) {
    forall q :: q in pending ==> rank(ns) < rank(q)
  }

  /** `ns` and all its visible ancestors, with the invisible entry if it is reached. */
  ghost function Chain(k: Kernel, rank: Rank, ns: NamespaceID): set<NamespaceID>
    requires KernelOk(k, rank)
    decreases rank(ns)
  {
    {ns} + (if Above(k, ns).Some? then Chain(k, rank, Above(k, ns).value) else {})
  }

  lemma NewEntryForest(k: Kernel, rank: Rank, s: Info, ns: NamespaceID, pending: set<NamespaceID>)
    requires KernelOk(k, rank) && Forest(k, s, pending) && ns in k.nsType && ns !in s.nsList
    ensures Forest(k, NewEntry(s, ns, k.nsType[ns]), pending + {ns})
  {
    var s', pending' := NewEntry(s, ns, k.nsType[ns]), pending + {ns};
    forall c, p ensures Listed(k, s', pending', c, p) <==> Listed(k, s, pending, c, p) && c != ns {
    }
    forall c ensures !Listed(k, s', pending', c, ns) {
      assert Listed(k, s', pending', c, ns) ==> Listed(k, s, pending, c, ns);
    }
  }

  lemma LinkForest(k: Kernel, s: Info, ns: NamespaceID, p: NamespaceID, pending: set<NamespaceID>)
    requires Forest(k, s, pending + {ns}) && ns !in pending
    requires ns in s.nsList && ns != INVIS_USER_NS && p in s.nsList && Above(k, ns) == Some(p)
    ensures Forest(k, AppendChild(s, p, ns), pending)
  {
    var s' := AppendChild(s, p, ns);
    var before := s.nsList[p].children;
    assert !Listed(k, s, pending + {ns}, ns, p);
    forall c, q ensures Listed(k, s', pending, c, q)
                   <==> Listed(k, s, pending + {ns}, c, q) || (c == ns && q == p) {
    }
    forall q, c | q in s'.nsList
      ensures c in s'.nsList[q].children <==> Listed(k, s', pending, c, q)
    {
      if q == p { assert c in s'.nsList[q].children <==> c in before || c == ns; }
    }
  }

  lemma RootForest(k: Kernel, rank: Rank, s: Info, ns: NamespaceID, pending: set<NamespaceID>)
    requires KernelOk(k, rank) && Forest(k, s, pending + {ns}) && ns !in pending
    requires ns in s.nsList && IsTop(k, ns)
    ensures Forest(k, s.(rootNS := ns), pending)
  {
    var s' := s.(rootNS := ns);
    forall c, p ensures Listed(k, s', pending, c, p) <==> Listed(k, s, pending + {ns}, c, p) {
    }
  }

  lemma InvisibleForest(k: Kernel, rank: Rank, s: Info, pending: set<NamespaceID>)
    requires KernelOk(k, rank) && Forest(k, s, pending)
    ensures Forest(k, WithInvisible(s), pending)
  {
    var s' := WithInvisible(s);
    forall c, p ensures Listed(k, s', pending, c, p) <==> Listed(k, s, pending, c, p) {
    }
    if INVIS_USER_NS !in s.nsList {
      forall c ensures !Listed(k, s', pending, c, INVIS_USER_NS) {
        assert Listed(k, s', pending, c, INVIS_USER_NS) ==> Listed(k, s, pending, c, INVIS_USER_NS);
      }
    }
  }

  lemma {:induction false} ChainRecorded(k: Kernel, rank: Rank, s: Info, ns: NamespaceID, pending: set<NamespaceID>)
    requires KernelOk(k, rank) && Forest(k, s, pending) && ns in s.nsList && AllAbove(rank, pending, ns)
    ensures Chain(k, rank, ns) <= s.nsList.Keys
    decreases rank(ns)
  {
    if Above(k, ns).Some? {
      assert Listed(k, s, pending, ns, Above(k, ns).value);
      ChainRecorded(k, rank, s, Above(k, ns).value, pending);
    }
  }

  lemma AppendPidForest(k: Kernel, s: Info, ns: NamespaceID, pid: int, pending: set<NamespaceID>)
    requires Forest(k, s, pending) && ns in s.nsList
    ensures Forest(k, AppendPid(s, ns, pid), pending)
  {
    var s' := AppendPid(s, ns, pid);
    forall c, p ensures Listed(k, s', pending, c, p) <==> Listed(k, s, pending, c, p) {
    }
  }

  /** Recording a namespace keeps the forest, adds exactly the chain of its ancestors, and
      touches no list of PIDs but its own. */
  lemma {:induction false} AddNamespaceForest(k: Kernel, rank: Rank, s: Info, ns: NamespaceID, pid: int,
                                              pending: set<NamespaceID>)
    requires KernelOk(k, rank) && Forest(k, s, pending) && ns in k.nsType && AllAbove(rank, pending, ns)
    ensures var r := AddNamespace(k, rank, s, ns, pid);
            && Forest(k, r, pending)
            && r.nsList.Keys == s.nsList.Keys + Chain(k, rank, ns)
    decreases rank(ns), 1
  {
    if ns in s.nsList {
      ChainRecorded(k, rank, s, ns, pending);
      if pid > 0 { AppendPidForest(k, s, ns, pid, pending); }
    } else {
      AddToListForest(k, rank, s, ns, pending);
      if pid > 0 { AppendPidForest(k, AddNamespaceToList(k, rank, s, ns), ns, pid, pending); }
    }
  }

  lemma {:induction false} AddToListForest(k: Kernel, rank: Rank, s: Info, ns: NamespaceID, pending: set<NamespaceID>)
    requires KernelOk(k, rank) && Forest(k, s, pending) && ns in k.nsType && AllAbove(rank, pending, ns)
    requires ns !in s.nsList && ns !in pending
    ensures var r := AddNamespaceToList(k, rank, s, ns);
            && Forest(k, r, pending)
            && r.nsList.Keys == s.nsList.Keys + Chain(k, rank, ns)
    decreases rank(ns), 0
  {
    NewEntryForest(k, rank, s, ns, pending);
    var s1 := NewEntry(s, ns, k.nsType[ns]);
    if ns in k.up {
      var p := k.up[ns];
      assert Above(k, ns) == Some(p);
      AddNamespaceForest(k, rank, s1, p, -1, pending + {ns});
      LinkForest(k, AddNamespace(k, rank, s1, p, -1), ns, p, pending);
    } else if IsTop(k, ns) {
      RootForest(k, rank, s1, ns, pending);
    } else {
      UnownedForest(k, rank, s1, ns, pending);
    }
  }

  /** The entry of a namespace whose owner is not visible joins the invisible entry. */
  lemma UnownedForest(k: Kernel, rank: Rank, s1: Info, ns: NamespaceID, pending: set<NamespaceID>)
    requires KernelOk(k, rank) && Forest(k, s1, pending + {ns}) && ns !in pending && ns in s1.nsList
    requires ns in k.nsType && ns !in k.up && !IsTop(k, ns)
    ensures var r := AppendChild(WithInvisible(s1), INVIS_USER_NS, ns);
            && Forest(k, r, pending)
            && r.nsList.Keys == s1.nsList.Keys + {INVIS_USER_NS}
            && Chain(k, rank, ns) == {ns, INVIS_USER_NS}
  {
    InvisibleForest(k, rank, s1, pending + {ns});
    LinkForest(k, WithInvisible(s1), ns, INVIS_USER_NS, pending);
    assert Above(k, INVIS_USER_NS) == None;
    assert Chain(k, rank, INVIS_USER_NS) == {INVIS_USER_NS};
  }

  ghost function Chains(k: Kernel, rank: Rank, adds: seq<(NamespaceID, int)>): set<NamespaceID>
    requires KernelOk(k, rank)
  {
    set i, x | 0 <= i < |adds| && x in Chain(k, rank, adds[i].0) :: x
  }

  lemma ChainsSnoc(k: Kernel, rank: Rank, adds: seq<(NamespaceID, int)>, n: nat)
    requires KernelOk(k, rank) && |adds| == n + 1
    ensures Chains(k, rank, adds) == Chains(k, rank, adds[..n]) + Chain(k, rank, adds[n].0)
  {
    var before := adds[..n];
    forall x | x in Chains(k, rank, before) ensures x in Chains(k, rank, adds) {
      var i :| 0 <= i < n && x in Chain(k, rank, before[i].0);
      assert x in Chain(k, rank, adds[i].0);
    }
    forall x | x in Chains(k, rank, adds) && x !in Chain(k, rank, adds[n].0)
      ensures x in Chains(k, rank, before)
    {
      var i :| 0 <= i < |adds| && x in Chain(k, rank, adds[i].0);
      assert x in Chain(k, rank, before[i].0);
    }
  }

  /** After any sequence of calls, starting from nothing: the recorded namespaces are the
      ones added and all their ancestors, and they form a forest. */
  lemma {:induction false} AddAllForest(k: Kernel, rank: Rank, adds: seq<(NamespaceID, int)>)
    requires KernelOk(k, rank) && forall a :: a in adds ==> a.0 in k.nsType
    ensures Forest(k, AddAll(k, rank, adds), {})
    ensures AddAll(k, rank, adds).nsList.Keys == Chains(k, rank, adds)
  {
    if adds != [] {
      var n := |adds| - 1;
      AddAllForest(k, rank, adds[..n]);
      AddNamespaceForest(k, rank, AddAll(k, rank, adds[..n]), adds[n].0, adds[n].1, {});
      ChainsSnoc(k, rank, adds, n);
    }
  }

  /** In a finished forest everything recorded but the top of the hierarchy and the
      invisible entry is in exactly one list of children, and there exactly once. */
  lemma ExactlyOneParent(k: Kernel, rank: Rank, s: Info, c: NamespaceID)
    requires KernelOk(k, rank) && Forest(k, s, {}) && c in s.nsList && c != INVIS_USER_NS && !IsTop(k, c)
    ensures exists p :: p in s.nsList && c in s.nsList[p].children && Above(k, c) == Some(p)
                        && multiset(s.nsList[p].children)[c] == 1
                        && forall q :: q in s.nsList && c in s.nsList[q].children ==> q == p
  {
    var p := Above(k, c).value;
    assert Listed(k, s, {}, c, p);
    NoDupCount(s.nsList[p].children, c);
    forall q | q in s.nsList && c in s.nsList[q].children ensures q == p {
      assert Listed(k, s, {}, c, q);
    }
  }

  lemma {:induction false} NoDupCount<T(!new)>(s: seq<T>, x: T)
    requires NoDup(s) && x in s
    ensures multiset(s)[x] == 1
  {
    var n := |s| - 1;
    assert s == s[..n] + [s[n]];
    if x in s[..n] {
      NoDupCount(s[..n], x);
    }
  }

  // ---------------------------------------------------------------- member processes

  function PidsOf(adds: seq<(NamespaceID, int)>, ns: NamespaceID): seq<int> {
    if adds == [] then []
    else
      var a := adds[|adds|-1];
      PidsOf(adds[..|adds|-1], ns) + (if a.0 == ns && a.1 > 0 then [a.1] else [])
  }

  ghost function Pids(s: Info, ns: NamespaceID): seq<int> {
    if ns in s.nsList then s.nsList[ns].pids else []
  }

  lemma {:induction false} AddNamespacePids(k: Kernel, rank: Rank, s: Info, ns: NamespaceID, pid: int, x: NamespaceID)
    requires KernelOk(k, rank) && ns in k.nsType
    ensures Pids(AddNamespace(k, rank, s, ns, pid), x)
         == Pids(s, x) + (if x == ns && pid > 0 then [pid] else [])
    decreases rank(ns), 1
  {
    if ns !in s.nsList { AddToListPids(k, rank, s, ns, x); }
  }

  lemma {:induction false} AddToListPids(k: Kernel, rank: Rank, s: Info, ns: NamespaceID, x: NamespaceID)
    requires KernelOk(k, rank) && ns in k.nsType && ns !in s.nsList
    ensures Pids(AddNamespaceToList(k, rank, s, ns), x) == Pids(s, x)
    decreases rank(ns), 0
  {
    if ns in k.up {
      assert Above(k, ns) == Some(k.up[ns]);
      AddNamespacePids(k, rank, NewEntry(s, ns, k.nsType[ns]), k.up[ns], -1, x);
    }
  }

  /** Each namespace lists its member processes once per call that named it, in order;
      recording a namespace on behalf of a descendant adds no process. */
  lemma {:induction false} AddAllPids(k: Kernel, rank: Rank, adds: seq<(NamespaceID, int)>, x: NamespaceID)
    requires KernelOk(k, rank) && forall a :: a in adds ==> a.0 in k.nsType
    ensures Pids(AddAll(k, rank, adds), x) == PidsOf(adds, x)
  {
    if adds != [] {
      var n := |adds| - 1;
      AddAllPids(k, rank, adds[..n], x);
      AddNamespacePids(k, rank, AddAll(k, rank, adds[..n]), adds[n].0, adds[n].1, x);
    }
  }
}
