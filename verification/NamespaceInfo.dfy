/** `NamespaceInfo` of `namespaces_of.go` with its methods, in their own form. */
module NamespaceInfos {
  import Options
  import opened Namespaces

  class NamespaceInfo {
    var nsList: map<NamespaceID, NamespaceAttribs>
    var rootNS: NamespaceID

    ghost function State(): Info
      reads this
    {
      Info(nsList, rootNS)
    }

    constructor ()
      ensures State() == Info(map[], INVIS_USER_NS)
    {
      nsList, rootNS := map[], INVIS_USER_NS;
    }

    method AddNamespace(k: Kernel, ns: NamespaceID, pid: int, ghost rank: Rank)
      requires KernelOk(k, rank) && ns in k.nsType
      modifies this
      ensures State() == Namespaces.AddNamespace(k, rank, old(State()), ns, pid)
      decreases rank(ns), 1
    {
      if ns !in nsList {
        AddNamespaceToList(k, ns, rank);
      }
      if pid > 0 {
        nsList := nsList[ns := nsList[ns].(pids := nsList[ns].pids + [pid])];
      }
    }

    method AddNamespaceToList(k: Kernel, ns: NamespaceID, ghost rank: Rank)
      requires KernelOk(k, rank) && ns in k.nsType && ns !in nsList
      modifies this
      ensures State() == Namespaces.AddNamespaceToList(k, rank, old(State()), ns)
      decreases rank(ns), 0
    {
      nsList := nsList[ns := NamespaceAttribs(k.nsType[ns], [], [])];
      if ns !in k.up {
        if k.nsType[ns] == User || k.pidns {
          rootNS := ns;
        } else {
          if INVIS_USER_NS !in nsList {
            nsList := nsList[INVIS_USER_NS := NamespaceAttribs(User, [], [])];
          }
          AppendChild(INVIS_USER_NS, ns);
        }
      } else {
        var parent := k.up[ns];
        assert Above(k, ns) == Options.Some(parent);
        AddNamespace(k, parent, -1, rank);
        AppendChild(parent, ns);
      }
    }

    method AppendChild(parent: NamespaceID, ns: NamespaceID)
      requires parent in nsList
      modifies this`nsList
      ensures State() == Namespaces.AppendChild(old(State()), parent, ns)
    {
      nsList := nsList[parent := nsList[parent].(children := nsList[parent].children + [ns])];
    }
  }

  /** A whole scan of processes. */
  method AddAll(k: Kernel, adds: seq<(NamespaceID, int)>, ghost rank: Rank) returns (nsi: NamespaceInfo)
    requires KernelOk(k, rank) && forall a :: a in adds ==> a.0 in k.nsType
    ensures fresh(nsi) && nsi.State() == Namespaces.AddAll(k, rank, adds)
    ensures Forest(k, nsi.State(), {}) && nsi.nsList.Keys == Chains(k, rank, adds)
  {
    nsi := new NamespaceInfo();
    var i := 0;
    while i < |adds|
      invariant 0 <= i <= |adds|
      invariant nsi.State() == Namespaces.AddAll(k, rank, adds[..i])
    {
      assert adds[..i+1][..i] == adds[..i];
      nsi.AddNamespace(k, adds[i].0, adds[i].1, rank);
      i := i + 1;
    }
    assert adds[..i] == adds;
    AddAllForest(k, rank, adds);
  }
}
