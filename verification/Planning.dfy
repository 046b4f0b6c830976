/** Merging a list of planned operations, and checking what it asks of the nodes. */
module Planning {
  import opened Lists
  import opened Overlay
  import opened Workloads
  import opened VersionMerge

  // ----- Keys in the order a JavaScript object lists integer keys

  lemma {:induction false} MinExists(S: set<nat>)
    requires S != {}
    ensures exists m :: m in S && forall k :: k in S ==> m <= k
  {
    var x :| x in S;
    var rest := S - {x};
    if rest == {} {
      assert S == {x};
    } else {
      MinExists(rest);
      var m :| m in rest && forall k :: k in rest ==> m <= k;
      var least := if x < m then x else m;
      forall k | k in S ensures least <= k {
        if k != x {
          assert k in rest;
        }
      }
      assert least in S && forall k :: k in S ==> least <= k;
    }
  }

  function Min(S: set<nat>): (m: nat)
    requires S != {}
    ensures m in S && forall k :: k in S ==> m <= k
  {
    MinExists(S);
    var m :| m in S && forall k :: k in S ==> m <= k;
    m
  }

  function Ascending(S: set<nat>): (r: seq<nat>)
    ensures forall k :: k in r <==> k in S
    ensures forall i, j :: 0 <= i < j < |r| ==> r[i] < r[j]
  {
    if S == {} then []
    else
      var m := Min(S);
      var rest := Ascending(S - {m});
      assert forall i :: 0 <= i < |rest| ==> rest[i] in rest;
      [m] + rest
  }

  // ----- deployMerge

  function Deploys(ts: seq<TwinView>, node: NodeId): seq<TwinView> {
    if ts == [] then []
    else
      var t := Last(ts);
      Deploys(Front(ts), node) + if t.operation == Deploy && t.nodeId == node then [t] else []
  }

  function DeployNodes(ts: seq<TwinView>): set<NodeId> {
    set t | t in ts && t.operation == Deploy :: t.nodeId
  }

  /** All of a node's deploys in one: the first, with everybody's workloads and public addresses. */
  function Joined(group: seq<TwinView>): TwinView
    requires group != []
  {
    group[0].(deployment := group[0].deployment.(workloads := Gather(group)), publicIps := SumIps(group))
  }

  function JoinedFor(ts: seq<TwinView>, nodes: seq<NodeId>): seq<TwinView> {
    if nodes == [] then []
    else
      var group := Deploys(ts, Last(nodes));
      JoinedFor(ts, Front(nodes)) + if group == [] then [] else [Joined(group)]
  }

  function DeployMerge(ts: seq<TwinView>): seq<TwinView> {
    JoinedFor(ts, Ascending(DeployNodes(ts)))
  }

  lemma {:induction false} InDeploys(ts: seq<TwinView>, node: NodeId, t: TwinView)
    ensures t in Deploys(ts, node) <==> t in ts && t.operation == Deploy && t.nodeId == node
  {
    if ts != [] {
      assert ts == Front(ts) + [Last(ts)];
      InDeploys(Front(ts), node, t);
    }
  }

  lemma HasDeploys(ts: seq<TwinView>, node: NodeId)
    ensures Deploys(ts, node) != [] <==> node in DeployNodes(ts)
    ensures Deploys(ts, node) != [] ==> var j := Joined(Deploys(ts, node)); j.operation == Deploy && j.nodeId == node
  {
    var group := Deploys(ts, node);
    if group != [] {
      InDeploys(ts, node, group[0]);
      assert group[0] in group;
    }
    if node in DeployNodes(ts) {
      var t :| t in ts && t.operation == Deploy && t.nodeId == node;
      InDeploys(ts, node, t);
    }
  }

  lemma {:induction false} DeploysConcat(a: seq<TwinView>, b: seq<TwinView>, node: NodeId)
    ensures Deploys(a + b, node) == Deploys(a, node) + Deploys(b, node)
  {
    if b == [] {
      assert a + b == a;
    } else {
      assert Front(a + b) == a + Front(b);
      DeploysConcat(a, Front(b), node);
    }
  }

  lemma DeploysOfOne(t: TwinView, node: NodeId)
    ensures Deploys([t], node) == if t.operation == Deploy && t.nodeId == node then [t] else []
  {
    var none: seq<TwinView> := [];
    assert Front([t]) == none && Deploys(none, node) == [];
  }

  lemma {:induction false} DeploysOfJoined(ts: seq<TwinView>, nodes: seq<NodeId>, node: NodeId)
    requires Distinct(nodes)
    ensures Deploys(JoinedFor(ts, nodes), node)
            == if node in nodes && Deploys(ts, node) != [] then [Joined(Deploys(ts, node))] else []
  {
    if nodes == [] {
      var none: seq<TwinView> := [];
      assert JoinedFor(ts, nodes) == none && Deploys(none, node) == [];
    } else {
      DistinctFront(nodes);
      assert nodes == Front(nodes) + [Last(nodes)];
      DeploysOfJoined(ts, Front(nodes), node);
      DeploysOfLastJoined(ts, nodes, node);
    }
  }

  lemma DeploysOfLastJoined(ts: seq<TwinView>, nodes: seq<NodeId>, node: NodeId)
    requires nodes != []
    ensures Deploys(JoinedFor(ts, nodes), node)
            == Deploys(JoinedFor(ts, Front(nodes)), node)
               + if node == Last(nodes) && Deploys(ts, node) != [] then [Joined(Deploys(ts, node))] else []
  {
    var group := Deploys(ts, Last(nodes));
    if group != [] {
      HasDeploys(ts, Last(nodes));
      DeploysConcat(JoinedFor(ts, Front(nodes)), [Joined(group)], node);
      DeploysOfOne(Joined(group), node);
    } else {
      assert JoinedFor(ts, nodes) == JoinedFor(ts, Front(nodes));
    }
  }

  /** Per node, merging leaves one deploy at most and loses, adds or reorders no workload and no public address. */
  lemma DeployMergeConserves(ts: seq<TwinView>, node: NodeId)
    ensures |Deploys(DeployMerge(ts), node)| <= 1
    ensures Gather(Deploys(DeployMerge(ts), node)) == Gather(Deploys(ts, node))
    ensures SumIps(Deploys(DeployMerge(ts), node)) == SumIps(Deploys(ts, node))
    ensures Deploys(DeployMerge(ts), node) == if Deploys(ts, node) == [] then [] else [Joined(Deploys(ts, node))]
  {
    DeploysOfJoined(ts, Ascending(DeployNodes(ts)), node);
    HasDeploys(ts, node);
    if Deploys(ts, node) != [] {
      OneUpdate(Joined(Deploys(ts, node)));
    }
  }

  /** A node's merged deploy goes by its first one: its network, its contract and its version. */
  lemma DeployMergeKeepsFirst(ts: seq<TwinView>, node: NodeId)
    requires Deploys(ts, node) != []
    ensures Deploys(DeployMerge(ts), node) != []
    ensures var first, merged := Deploys(ts, node)[0], Deploys(DeployMerge(ts), node)[0];
            && merged.network == first.network && merged.operation == Operation.Deploy && merged.nodeId == node
            && merged.deployment.contractId == first.deployment.contractId
            && merged.deployment.version == first.deployment.version
  {
    DeployMergeConserves(ts, node);
    HasDeploys(ts, node);
  }

  lemma {:induction false} JoinedForSame(ts: seq<TwinView>, us: seq<TwinView>, nodes: seq<NodeId>)
    requires forall node :: Deploys(us, node) == if Deploys(ts, node) == [] then [] else [Joined(Deploys(ts, node))]
    ensures JoinedFor(us, nodes) == JoinedFor(ts, nodes)
  {
    if nodes != [] {
      JoinedForSame(ts, us, Front(nodes));
      var group := Deploys(ts, Last(nodes));
      if group != [] {
        OneUpdate(Joined(group));
      }
    }
  }

  /** Merging what is merged changes nothing. */
  lemma DeployMergeIdempotent(ts: seq<TwinView>)
    ensures DeployMerge(DeployMerge(ts)) == DeployMerge(ts)
  {
    var us := DeployMerge(ts);
    forall node ensures Deploys(us, node) == if Deploys(ts, node) == [] then [] else [Joined(Deploys(ts, node))] {
      DeployMergeConserves(ts, node);
    }
    forall node: NodeId ensures node in DeployNodes(us) <==> node in DeployNodes(ts) {
      HasDeploys(ts, node);
      HasDeploys(us, node);
    }
    assert DeployNodes(us) == DeployNodes(ts);
    JoinedForSame(ts, us, Ascending(DeployNodes(ts)));
  }

  // ----- updateMerge

  function Updates(ts: seq<TwinView>, contract: nat): seq<TwinView> {
    if ts == [] then []
    else
      var t := Last(ts);
      Updates(Front(ts), contract) + if t.operation == Update && t.deployment.contractId == contract then [t] else []
  }

  function UpdateContracts(ts: seq<TwinView>): set<nat> {
    set t | t in ts && t.operation == Update :: t.deployment.contractId
  }

  /** The updates of one contract, the first moved to the node the chain has the contract on. */
  function Located(group: seq<TwinView>, node: NodeId): seq<TwinView>
    requires group != []
  {
    group[0 := group[0].(nodeId := node)]
  }

  function UpdatedFor(ts: seq<TwinView>, nodeOf: map<nat, NodeId>, contracts: seq<nat>): seq<TwinView> {
    if contracts == [] then []
    else
      var group := Updates(ts, Last(contracts));
      UpdatedFor(ts, nodeOf, Front(contracts))
      + if group == [] || Last(contracts) !in nodeOf then []
        else [UpdateToLatest(Located(group, nodeOf[Last(contracts)]))]
  }

  function UpdateMerge(ts: seq<TwinView>, nodeOf: map<nat, NodeId>): seq<TwinView> {
    UpdatedFor(ts, nodeOf, Ascending(UpdateContracts(ts)))
  }

  lemma {:induction false} InUpdates(ts: seq<TwinView>, contract: nat, t: TwinView)
    ensures t in Updates(ts, contract) <==> t in ts && t.operation == Update && t.deployment.contractId == contract
  {
    if ts != [] {
      assert ts == Front(ts) + [Last(ts)];
      InUpdates(Front(ts), contract, t);
    }
  }

  lemma HasUpdates(ts: seq<TwinView>, contract: nat, node: NodeId)
    ensures Updates(ts, contract) != [] <==> contract in UpdateContracts(ts)
    ensures Updates(ts, contract) != [] ==>
              var u := UpdateToLatest(Located(Updates(ts, contract), node));
              u.operation == Update && u.deployment.contractId == contract && u.nodeId == node
  {
    var group := Updates(ts, contract);
    if group != [] {
      InUpdates(ts, contract, group[0]);
      assert group[0] in group;
    }
    if contract in UpdateContracts(ts) {
      var t :| t in ts && t.operation == Update && t.deployment.contractId == contract;
      InUpdates(ts, contract, t);
    }
  }

  /** One merged update per contract, in the order of the contracts. */
  lemma {:induction false} UpdatedForEach(ts: seq<TwinView>, nodeOf: map<nat, NodeId>, contracts: seq<nat>)
    requires forall c :: c in contracts ==> c in UpdateContracts(ts) && c in nodeOf
    ensures |UpdatedFor(ts, nodeOf, contracts)| == |contracts|
    ensures forall i :: 0 <= i < |contracts| ==>
              Updates(ts, contracts[i]) != []
              && UpdatedFor(ts, nodeOf, contracts)[i]
                 == UpdateToLatest(Located(Updates(ts, contracts[i]), nodeOf[contracts[i]]))
  {
    if contracts != [] {
      assert contracts == Front(contracts) + [Last(contracts)];
      assert Last(contracts) in contracts;
      UpdatedForEach(ts, nodeOf, Front(contracts));
      HasUpdates(ts, Last(contracts), 0);
    }
  }

  // ----- merge

  function Deletes(ts: seq<TwinView>): seq<TwinView> {
    if ts == [] then []
    else Deletes(Front(ts)) + if Last(ts).operation == Delete then [Last(ts)] else []
  }

  function DeletedContracts(ts: seq<TwinView>): set<nat> {
    set t | t in ts && t.operation == Delete :: t.deployment.contractId
  }

  function Without(ts: seq<TwinView>, contracts: set<nat>): seq<TwinView> {
    if ts == [] then []
    else Without(Front(ts), contracts) + if Last(ts).deployment.contractId in contracts then [] else [Last(ts)]
  }

  /** Everything planned, in normal form. */
  function Merge(ts: seq<TwinView>, nodeOf: map<nat, NodeId>): seq<TwinView> {
    DeployMerge(ts) + Without(UpdateMerge(ts, nodeOf), DeletedContracts(ts)) + Deletes(ts)
  }

  lemma {:induction false} InDeletes(ts: seq<TwinView>, t: TwinView)
    ensures t in Deletes(ts) <==> t in ts && t.operation == Delete
  {
    if ts != [] {
      assert ts == Front(ts) + [Last(ts)];
      InDeletes(Front(ts), t);
    }
  }

  lemma {:induction false} InWithout(ts: seq<TwinView>, contracts: set<nat>, t: TwinView)
    ensures t in Without(ts, contracts) <==> t in ts && t.deployment.contractId !in contracts
  {
    if ts != [] {
      assert ts == Front(ts) + [Last(ts)];
      InWithout(Front(ts), contracts, t);
    }
  }

  lemma {:induction false} WithoutAscends(ts: seq<TwinView>, contracts: set<nat>)
    requires forall i, j :: 0 <= i < j < |ts| ==> ts[i].deployment.contractId < ts[j].deployment.contractId
    ensures forall i, j :: 0 <= i < j < |Without(ts, contracts)| ==>
              Without(ts, contracts)[i].deployment.contractId < Without(ts, contracts)[j].deployment.contractId
  {
    if ts != [] {
      WithoutAscends(Front(ts), contracts);
      var before := Without(Front(ts), contracts);
      forall i | 0 <= i < |before| ensures before[i].deployment.contractId < Last(ts).deployment.contractId {
        InWithout(Front(ts), contracts, before[i]);
        var k :| 0 <= k < |Front(ts)| && Front(ts)[k] == before[i];
      }
    }
  }

  lemma {:induction false} JoinedForNodes(ts: seq<TwinView>, nodes: seq<NodeId>)
    requires forall node :: node in nodes ==> node in DeployNodes(ts)
    ensures |JoinedFor(ts, nodes)| == |nodes|
    ensures forall i :: 0 <= i < |nodes| ==>
              JoinedFor(ts, nodes)[i].nodeId == nodes[i] && JoinedFor(ts, nodes)[i].operation == Deploy
  {
    if nodes != [] {
      assert nodes == Front(nodes) + [Last(nodes)];
      assert Last(nodes) in nodes;
      JoinedForNodes(ts, Front(nodes));
      HasDeploys(ts, Last(nodes));
    }
  }

  lemma UpdateMergeShape(ts: seq<TwinView>, nodeOf: map<nat, NodeId>)
    requires UpdateContracts(ts) <= nodeOf.Keys
    ensures var us := UpdateMerge(ts, nodeOf);
            && (forall i, j :: 0 <= i < j < |us| ==> us[i].deployment.contractId < us[j].deployment.contractId)
            && (forall u :: u in us ==> u.operation == Update)
            && (forall c :: c in UpdateContracts(ts) <==> exists u :: u in us && u.deployment.contractId == c)
  {
    var us, contracts := UpdateMerge(ts, nodeOf), Ascending(UpdateContracts(ts));
    UpdatedForEach(ts, nodeOf, contracts);
    forall i | 0 <= i < |us| ensures us[i].operation == Update && us[i].deployment.contractId == contracts[i] {
      HasUpdates(ts, contracts[i], nodeOf[contracts[i]]);
    }
    forall c | c in UpdateContracts(ts) ensures exists u :: u in us && u.deployment.contractId == c {
      assert c in contracts;
      var i :| 0 <= i < |contracts| && contracts[i] == c;
      assert us[i] in us;
    }
  }

  ghost predicate OneDeployPerNode(ts: seq<TwinView>) {
    forall i, j :: 0 <= i < j < |ts| && ts[i].operation == Deploy && ts[j].operation == Deploy ==>
             ts[i].nodeId != ts[j].nodeId
  }

  ghost predicate OneUpdatePerContract(ts: seq<TwinView>) {
    forall i, j :: 0 <= i < j < |ts| && ts[i].operation == Update && ts[j].operation == Update
                   ==> ts[i].deployment.contractId != ts[j].deployment.contractId
  }

  ghost predicate NoneUpdatedAndDeleted(ts: seq<TwinView>) {
    forall u, d :: u in ts && d in ts && u.operation == Update && d.operation == Delete
                   ==> u.deployment.contractId != d.deployment.contractId
  }

  /** The normal form: at most one deploy per node, at most one update per contract, nothing both updated and
      deleted, every delete kept in order, and every other updated contract still there. */
  lemma MergeNormalForm(ts: seq<TwinView>, nodeOf: map<nat, NodeId>)
    requires UpdateContracts(ts) <= nodeOf.Keys
    ensures var ms := Merge(ts, nodeOf); OneDeployPerNode(ms) && OneUpdatePerContract(ms) && NoneUpdatedAndDeleted(ms)
    ensures forall c :: c in UpdateContracts(ts) - DeletedContracts(ts)
                        <==> exists u :: u in Merge(ts, nodeOf) && u.operation == Update && u.deployment.contractId == c
    ensures Deletes(Merge(ts, nodeOf)) == Deletes(ts)
  {
    MergeParts(ts, nodeOf);
    InThree(DeployMerge(ts), Without(UpdateMerge(ts, nodeOf), DeletedContracts(ts)), Deletes(ts));
    MergeSeparates(ts, nodeOf);
    forall c ensures c in UpdateContracts(ts) - DeletedContracts(ts)
                     <==> exists u :: u in Merge(ts, nodeOf) && u.operation == Update && u.deployment.contractId == c {
      KeptContract(ts, nodeOf, c);
    }
  }

  /** Deploys come first, by node; updates then, by contract; deletes last. */
  predicate Precedes(t: TwinView, u: TwinView) {
    match t.operation
    case Deploy => u.operation == Deploy ==> t.nodeId < u.nodeId
    case Update => && u.operation != Deploy
                   && (u.operation == Update ==> t.deployment.contractId < u.deployment.contractId)
    case Delete => u.operation == Delete
  }

  predicate InOrder(ms: seq<TwinView>) {
    forall i, j :: 0 <= i < j < |ms| ==> Precedes(ms[i], ms[j])
  }

  lemma PhasesJoin(ds: seq<TwinView>, us: seq<TwinView>, xs: seq<TwinView>)
    requires forall i :: 0 <= i < |ds| ==> ds[i].operation == Deploy
    requires forall i :: 0 <= i < |us| ==> us[i].operation == Update
    requires forall i :: 0 <= i < |xs| ==> xs[i].operation == Delete
    requires forall i, j :: 0 <= i < j < |ds| ==> ds[i].nodeId < ds[j].nodeId
    requires forall i, j :: 0 <= i < j < |us| ==> us[i].deployment.contractId < us[j].deployment.contractId
    ensures InOrder(ds + us + xs)
  {
  }

  /** The merged plan is in order, whatever the order it was asked for. */
  lemma MergeOrder(ts: seq<TwinView>, nodeOf: map<nat, NodeId>)
    requires UpdateContracts(ts) <= nodeOf.Keys
    ensures InOrder(Merge(ts, nodeOf))
  {
    MergeParts(ts, nodeOf);
    JoinedForNodes(ts, Ascending(DeployNodes(ts)));
    UpdateMergeShape(ts, nodeOf);
    WithoutAscends(UpdateMerge(ts, nodeOf), DeletedContracts(ts));
    PhasesJoin(DeployMerge(ts), Without(UpdateMerge(ts, nodeOf), DeletedContracts(ts)), Deletes(ts));
  }

  lemma MergeSeparates(ts: seq<TwinView>, nodeOf: map<nat, NodeId>)
    requires UpdateContracts(ts) <= nodeOf.Keys
    ensures NoneUpdatedAndDeleted(Merge(ts, nodeOf))
  {
    MergeParts(ts, nodeOf);
    var ms := Merge(ts, nodeOf);
    InThree(DeployMerge(ts), Without(UpdateMerge(ts, nodeOf), DeletedContracts(ts)), Deletes(ts));
    forall u, d | u in ms && d in ms && u.operation == Update && d.operation == Delete
      ensures u.deployment.contractId != d.deployment.contractId
    {
      InWithout(UpdateMerge(ts, nodeOf), DeletedContracts(ts), u);
      InDeletes(ts, d);
    }
  }

  /** Where the members of a concatenation by operation come from. */
  lemma InThree(ds: seq<TwinView>, us: seq<TwinView>, xs: seq<TwinView>)
    requires forall t :: t in ds ==> t.operation == Deploy
    requires forall t :: t in us ==> t.operation == Update
    requires forall t :: t in xs ==> t.operation == Delete
    requires OneDeployPerNode(ds) && OneUpdatePerContract(us)
    ensures OneDeployPerNode(ds + us + xs) && OneUpdatePerContract(ds + us + xs)
    ensures forall t :: t in ds + us + xs ==>
              if t.operation == Deploy then t in ds else if t.operation == Update then t in us else t in xs
  {
    var ms := ds + us + xs;
    forall i | 0 <= i < |ms|
      ensures ms[i].operation == Deploy ==> i < |ds| && ms[i] == ds[i]
      ensures ms[i].operation == Update ==> |ds| <= i < |ds| + |us| && ms[i] == us[i - |ds|]
    {
      assert i < |ds| ==> ms[i] in ds;
      assert |ds| <= i < |ds| + |us| ==> ms[i] in us;
      assert |ds| + |us| <= i ==> ms[i] in xs;
    }
  }

  lemma KeptContract(ts: seq<TwinView>, nodeOf: map<nat, NodeId>, c: nat)
    requires UpdateContracts(ts) <= nodeOf.Keys
    ensures c in UpdateContracts(ts) - DeletedContracts(ts)
            <==> exists u :: u in Merge(ts, nodeOf) && u.operation == Update && u.deployment.contractId == c
  {
    MergeParts(ts, nodeOf);
    UpdateMergeShape(ts, nodeOf);
    var all, gone := UpdateMerge(ts, nodeOf), DeletedContracts(ts);
    InThree(DeployMerge(ts), Without(all, gone), Deletes(ts));
    if c in UpdateContracts(ts) - gone {
      var u :| u in all && u.deployment.contractId == c;
      InWithout(all, gone, u);
      assert u in Merge(ts, nodeOf);
    }
    if u :| u in Merge(ts, nodeOf) && u.operation == Update && u.deployment.contractId == c {
      InWithout(all, gone, u);
    }
  }

  lemma MergeParts(ts: seq<TwinView>, nodeOf: map<nat, NodeId>)
    requires UpdateContracts(ts) <= nodeOf.Keys
    ensures (forall t :: t in DeployMerge(ts) ==> t.operation == Deploy) && OneDeployPerNode(DeployMerge(ts))
    ensures var us := Without(UpdateMerge(ts, nodeOf), DeletedContracts(ts));
            (forall t :: t in us ==> t.operation == Update) && OneUpdatePerContract(us)
    ensures forall t :: t in Deletes(ts) ==> t.operation == Delete
    ensures Deletes(Merge(ts, nodeOf)) == Deletes(ts)
  {
    MergedDeploys(ts);
    MergedUpdates(ts, nodeOf);
    var ds, us := DeployMerge(ts), Without(UpdateMerge(ts, nodeOf), DeletedContracts(ts));
    forall t | t in Deletes(ts) ensures t.operation == Delete {
      InDeletes(ts, t);
    }
    DeletesConcat(ds + us, Deletes(ts));
    NoDeletes(ds + us);
    DeletesOfDeletes(ts);
  }

  lemma MergedDeploys(ts: seq<TwinView>)
    ensures (forall t :: t in DeployMerge(ts) ==> t.operation == Deploy) && OneDeployPerNode(DeployMerge(ts))
  {
    JoinedForNodes(ts, Ascending(DeployNodes(ts)));
  }

  lemma MergedUpdates(ts: seq<TwinView>, nodeOf: map<nat, NodeId>)
    requires UpdateContracts(ts) <= nodeOf.Keys
    ensures var us := Without(UpdateMerge(ts, nodeOf), DeletedContracts(ts));
            (forall t :: t in us ==> t.operation == Update) && OneUpdatePerContract(us)
  {
    UpdateMergeShape(ts, nodeOf);
    var all, gone := UpdateMerge(ts, nodeOf), DeletedContracts(ts);
    WithoutAscends(all, gone);
    forall t | t in Without(all, gone) ensures t.operation == Update {
      InWithout(all, gone, t);
    }
  }

  lemma {:induction false} DeletesConcat(a: seq<TwinView>, b: seq<TwinView>)
    ensures Deletes(a + b) == Deletes(a) + Deletes(b)
  {
    if b == [] {
      assert a + b == a;
    } else {
      assert Front(a + b) == a + Front(b);
      DeletesConcat(a, Front(b));
    }
  }

  lemma {:induction false} NoDeletes(ts: seq<TwinView>)
    requires forall i :: 0 <= i < |ts| ==> ts[i].operation != Delete
    ensures Deletes(ts) == []
  {
    if ts != [] {
      NoDeletes(Front(ts));
    }
  }

  lemma {:induction false} DeletesOfDeletes(ts: seq<TwinView>)
    ensures Deletes(Deletes(ts)) == Deletes(ts)
  {
    if ts != [] {
      DeletesOfDeletes(Front(ts));
      if Last(ts).operation == Delete {
        assert Front(Deletes(ts)) == Deletes(Front(ts)) && Last(Deletes(ts)) == Last(ts);
      } else {
        assert Deletes(ts) == Deletes(Front(ts));
      }
    }
  }
}
