/** Saving a network and loading it again (`Network.save`, `Network.load`). */
module NetworkStorage {
  import opened Lists
  import opened Overlay
  import opened Allocation
  import opened Decode
  import opened Networks
  import opened NetworkDelivery

  /** Every member that has a contract has published its table under it. */
  ghost predicate Publishes(nodes: seq<NodeView>, views: seq<NetView>, published: map<nat, seq<PublishedTable>>) {
    && |nodes| == |views|
    && forall i :: 0 <= i < |nodes| ==>
         && nodes[i].nodeId == views[i].site.nodeId
         && (nodes[i].contractId != 0 ==>
               nodes[i].contractId in published && published[nodes[i].contractId] == [PublishedTable(views[i], false)])
  }

  /** A save notes the contract for that node's records that have none yet, and changes nothing else about any. */
  lemma NotedOnce(nodes: seq<NodeView>, contractId: nat, nodeId: NodeId, i: nat)
    requires i < |nodes|
    ensures var now := Contracted(nodes, contractId, nodeId)[i];
            && |Contracted(nodes, contractId, nodeId)| == |nodes|
            && now.nodeId == nodes[i].nodeId && now.reservedIps == nodes[i].reservedIps
            && (nodes[i].contractId != 0 || nodes[i].nodeId != nodeId ==> now.contractId == nodes[i].contractId)
            && (nodes[i].contractId == 0 && nodes[i].nodeId == nodeId ==> now.contractId == contractId)
  {
  }

  /** Of members with different ids just those with a contract are stored, as they are. */
  lemma {:induction false} InRecorded(nodes: seq<NodeView>, some: seq<NodeView>, n: NodeView)
    requires forall i, j :: 0 <= i < j < |nodes| ==> nodes[i].nodeId != nodes[j].nodeId
    requires some <= nodes
    ensures n in Recorded(nodes, some) <==> n in some && n.contractId != 0
  {
    if some != [] {
      var f, l, k := Front(some), Last(some), |some| - 1;
      assert some == f + [l] && l == nodes[k] && NodeIndex(nodes, l.nodeId) == k;
      InRecorded(nodes, f, n);
      assert Recorded(nodes, some) == Recorded(nodes, f) + if l.contractId == 0 then [] else [l];
    }
  }

  lemma {:induction false} InCurrent(tables: seq<PublishedTable>, v: NetView)
    ensures v in Current(tables) <==>
            exists t :: t in tables && t.view == v && !t.deleted && 0 <= v.site.subnet < 256
  {
    if tables != [] {
      assert tables == Front(tables) + [Last(tables)];
      InCurrent(Front(tables), v);
    }
  }

  lemma {:induction false} InOwned(nodeId: NodeId, views: seq<NetView>, v: NetView)
    ensures v in Owned(nodeId, views) <==>
            exists x :: x in views && v == NetView(x.site.(nodeId := nodeId), x.peers)
  {
    if views != [] {
      assert views == Front(views) + [Last(views)];
      InOwned(nodeId, Front(views), v);
    }
  }

  /** The record's deployment has that table, not deleted and in range, and it is taken for the record's node. */
  ghost predicate Brings(n: NodeView, published: map<nat, seq<PublishedTable>>, v: NetView) {
    n.contractId in published
    && exists t :: t in published[n.contractId] && !t.deleted && 0 <= t.view.site.subnet < 256
                   && v == NetView(t.view.site.(nodeId := n.nodeId), t.view.peers)
  }

  lemma TablesBrought(n: NodeView, published: map<nat, seq<PublishedTable>>, v: NetView)
    ensures v in Owned(n.nodeId, TablesOf(n, published)) <==> Brings(n, published, v)
  {
    InOwned(n.nodeId, TablesOf(n, published), v);
    if n.contractId in published {
      forall x
        ensures x in TablesOf(n, published) <==>
                exists t :: t in published[n.contractId] && t.view == x && !t.deleted && 0 <= x.site.subnet < 256
      {
        InCurrent(published[n.contractId], x);
      }
    }
  }

  /** The tables loaded are those that the stored records' deployments have in them, undeleted and in range. */
  lemma {:induction false} InLoadedNets(stored: seq<NodeView>, published: map<nat, seq<PublishedTable>>, v: NetView)
    ensures v in LoadedNets(stored, published) <==> exists n :: n in stored && Brings(n, published, v)
  {
    if stored != [] {
      var f, l := Front(stored), Last(stored);
      assert stored == f + [l];
      InLoadedNets(f, published, v);
      TablesBrought(l, published, v);
    }
  }

  predicate Restorable(node: NodeView, view: NetView) {
    node.contractId != 0 && 0 <= view.site.subnet < 256
  }

  function KeptNodes(nodes: seq<NodeView>, views: seq<NetView>): seq<NodeView>
    requires |nodes| == |views|
  {
    if nodes == [] then []
    else KeptNodes(Front(nodes), Front(views)) + if Restorable(Last(nodes), Last(views)) then [Last(nodes)] else []
  }

  function KeptNets(nodes: seq<NodeView>, views: seq<NetView>): seq<NetView>
    requires |nodes| == |views|
  {
    if nodes == [] then []
    else KeptNets(Front(nodes), Front(views)) + if Restorable(Last(nodes), Last(views)) then [Last(views)] else []
  }

  ghost predicate AllRestorable(nodes: seq<NodeView>, views: seq<NetView>)
    requires |nodes| == |views|
  {
    forall i :: 0 <= i < |nodes| ==> Restorable(nodes[i], views[i])
  }

  lemma AllRestorableStep(nodes: seq<NodeView>, views: seq<NetView>)
    requires |nodes| == |views| > 0
    ensures AllRestorable(nodes, views) <==>
            AllRestorable(Front(nodes), Front(views)) && Restorable(Last(nodes), Last(views))
  {
    if AllRestorable(Front(nodes), Front(views)) && Restorable(Last(nodes), Last(views)) {
      forall i | 0 <= i < |nodes| ensures Restorable(nodes[i], views[i]) {
        assert i < |nodes| - 1 ==> Restorable(Front(nodes)[i], Front(views)[i]);
      }
    }
    if AllRestorable(nodes, views) {
      forall i | 0 <= i < |nodes| - 1 ensures Restorable(Front(nodes)[i], Front(views)[i]) {
        assert Restorable(nodes[i], views[i]);
      }
    }
  }

  lemma {:induction false} KeptLengths(nodes: seq<NodeView>, views: seq<NetView>)
    requires |nodes| == |views|
    ensures |KeptNodes(nodes, views)| == |KeptNets(nodes, views)| <= |nodes|
  {
    if nodes != [] {
      KeptLengths(Front(nodes), Front(views));
    }
  }

  lemma {:induction false} AllKept(nodes: seq<NodeView>, views: seq<NetView>)
    requires |nodes| == |views| && AllRestorable(nodes, views)
    ensures KeptNodes(nodes, views) == nodes && KeptNets(nodes, views) == views
  {
    if nodes != [] {
      assert nodes == Front(nodes) + [Last(nodes)] && views == Front(views) + [Last(views)];
      AllRestorableStep(nodes, views);
      AllKept(Front(nodes), Front(views));
    }
  }

  lemma {:induction false} SomeLost(nodes: seq<NodeView>, views: seq<NetView>)
    requires |nodes| == |views| && !AllRestorable(nodes, views)
    ensures |KeptNodes(nodes, views)| < |nodes|
  {
    AllRestorableStep(nodes, views);
    if AllRestorable(Front(nodes), Front(views)) {
      KeptLengths(Front(nodes), Front(views));
    } else {
      SomeLost(Front(nodes), Front(views));
    }
  }

  lemma KeptAllIff(nodes: seq<NodeView>, views: seq<NetView>)
    requires |nodes| == |views|
    ensures KeptNodes(nodes, views) == nodes && KeptNets(nodes, views) == views <==> AllRestorable(nodes, views)
    ensures KeptNodes(nodes, views) == nodes <==> KeptNets(nodes, views) == views
  {
    KeptLengths(nodes, views);
    if AllRestorable(nodes, views) {
      AllKept(nodes, views);
    } else {
      SomeLost(nodes, views);
    }
  }

  lemma OwnTableOnly(n: NodeView, v: NetView, published: map<nat, seq<PublishedTable>>)
    requires n.contractId in published && published[n.contractId] == [PublishedTable(v, false)]
    ensures TablesOf(n, published) == if 0 <= v.site.subnet < 256 then [v] else []
  {
    var one := [PublishedTable(v, false)];
    var none: seq<PublishedTable> := [];
    assert Front(one) == none && Last(one) == one[0] && Current(none) == [];
  }

  lemma LoadStep(before: seq<NodeView>, n: NodeView, v: NetView, published: map<nat, seq<PublishedTable>>)
    requires n.contractId in published && published[n.contractId] == [PublishedTable(v, false)]
             && v.site.nodeId == n.nodeId
    ensures LoadedNodes(before + [n], published)
            == LoadedNodes(before, published) + if 0 <= v.site.subnet < 256 then [n] else []
    ensures LoadedNets(before + [n], published)
            == LoadedNets(before, published) + if 0 <= v.site.subnet < 256 then [v] else []
  {
    OwnTableOnly(n, v, published);
    assert Front(before + [n]) == before && Last(before + [n]) == n;
    var views := TablesOf(n, published);
    assert Repeated(n, |views|) == if 0 <= v.site.subnet < 256 then [n] else [];
    assert Owned(n.nodeId, views) == views;
  }

  /** Each record with its own table comes back as it was. */
  lemma {:induction false} RestoredFrom(nodes: seq<NodeView>, some: seq<NodeView>, views: seq<NetView>,
                                        published: map<nat, seq<PublishedTable>>)
    requires forall i, j :: 0 <= i < j < |nodes| ==> nodes[i].nodeId != nodes[j].nodeId
    requires some <= nodes && Publishes(some, views, published)
    ensures LoadedNodes(Recorded(nodes, some), published) == KeptNodes(some, views)
    ensures LoadedNets(Recorded(nodes, some), published) == KeptNets(some, views)
  {
    if some != [] {
      var n, v := Last(some), Last(views);
      RestoredFrom(nodes, Front(some), Front(views), published);
      var before := Recorded(nodes, Front(some));
      if n.contractId == 0 {
        assert Recorded(nodes, some) == before;
      } else {
        assert n == nodes[|some| - 1] && NodeIndex(nodes, n.nodeId) == |some| - 1;
        assert Recorded(nodes, some) == before + [n];
        LoadStep(before, n, v, published);
      }
    }
  }

  /** Saving and loading gives back the members with their pools and tables, exactly if every member has a
      contract and a subnet inside the network's range. */
  lemma MembersRestoredIff(nodes: seq<NodeView>, views: seq<NetView>, published: map<nat, seq<PublishedTable>>)
    requires forall i, j :: 0 <= i < j < |nodes| ==> nodes[i].nodeId != nodes[j].nodeId
    requires Publishes(nodes, views, published)
    ensures LoadedNodes(Recorded(nodes, nodes), published) == nodes <==> AllRestorable(nodes, views)
    ensures LoadedNets(Recorded(nodes, nodes), published) == views <==> AllRestorable(nodes, views)
  {
    RestoredFrom(nodes, nodes, views, published);
    KeptAllIff(nodes, views);
  }

  /** And a network whose tables were just generated gets its access points back from those tables, each exactly
      once, if and only if all of them sit on members. */
  lemma NetworkRestored(net: Network, plan: Plan, published: map<nat, seq<PublishedTable>>)
    requires net.Matches(plan) && Consistent(net.State()) && KeysDiffer(net.Sites(), net.accessPoints)
    requires Publishes(net.NodeViews(), net.NetViews(), published) && AllRestorable(net.NodeViews(), net.NetViews())
    ensures var stored := Recorded(net.NodeViews(), net.NodeViews());
            var nodes, nets := LoadedNodes(stored, published), LoadedNets(stored, published);
            && nodes == net.NodeViews() && nets == net.NetViews()
            && (multiset(DecodePoints(nets, nets)) == multiset(net.accessPoints)
                <==> forall a :: a in net.accessPoints ==> HasSite(net.Sites(), a.nodeId))
  {
    var s := net.State();
    forall i, j | 0 <= i < j < |s.nodes| ensures s.nodes[i].nodeId != s.nodes[j].nodeId {
      assert s.sites[i].nodeId != s.sites[j].nodeId;
    }
    MembersRestoredIff(net.NodeViews(), net.NetViews(), published);
    NetworkDecodes(net, plan);
  }
}
