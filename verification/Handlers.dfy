/** `TwinDeploymentHandler`: the planned operations are merged in place. */
module Handlers {
  import opened Lists
  import opened Overlay
  import opened Workloads
  import opened VersionMerge
  import opened Planning
  import opened Capacity
  import opened Readiness

  function Views(tds: seq<TwinDeployment>): seq<TwinView>
    reads tds
  {
    seq(|tds|, i requires 0 <= i < |tds| reads tds => tds[i].View())
  }

  lemma DeployNodesStep(ts: seq<TwinView>, t: TwinView)
    ensures DeployNodes(ts + [t]) == DeployNodes(ts) + if t.operation == Deploy then {t.nodeId} else {}
  {
  }

  lemma DeploysStep(ts: seq<TwinView>, t: TwinView, node: NodeId)
    ensures Deploys(ts + [t], node)
            == if t.operation == Deploy && t.nodeId == node then Deploys(ts, node) + [t] else Deploys(ts, node)
  {
    var us := ts + [t];
    assert Front(us) == ts && Last(us) == t;
  }

  lemma JoinedStep(group: seq<TwinView>, t: TwinView)
    requires group != []
    ensures Joined(group + [t])
            == var j := Joined(group);
               j.(deployment := j.deployment.(workloads := j.deployment.workloads + t.deployment.workloads),
                  publicIps := j.publicIps + t.publicIps)
  {
    var us := group + [t];
    assert Front(us) == group && Last(us) == t;
  }

  lemma JoinedOne(t: TwinView)
    ensures Joined([t]) == t
  {
    OneUpdate(t);
  }

  /** What the dictionary of workloads by name holds. */
  ghost predicate Indexed(names: seq<string>, byName: map<string, seq<Workload>>, ws: seq<Workload>) {
    (forall name :: name in byName <==> name in names)
    && forall name :: name in byName ==> byName[name] == Occurrences(ws, name)
  }

  lemma GatherStep(ws: seq<Workload>, w: Workload)
    ensures FirstNames(ws + [w]) == if w.name in FirstNames(ws) then FirstNames(ws) else FirstNames(ws) + [w.name]
    ensures forall name :: Occurrences(ws + [w], name) == Occurrences(ws, name) + if w.name == name then [w] else []
  {
    var more := ws + [w];
    assert Front(more) == ws && Last(more) == w;
  }

  lemma IndexedStep(names: seq<string>, byName: map<string, seq<Workload>>, ws: seq<Workload>, w: Workload)
    requires names == FirstNames(ws) && Indexed(names, byName, ws)
    ensures var occ := if w.name in byName then byName[w.name] + [w] else [w];
            Indexed(FirstNames(ws + [w]), byName[w.name := occ], ws + [w])
  {
    GatherStep(ws, w);
    if w.name !in byName {
      NotYetMentioned(ws, w.name);
    }
  }

  lemma NotYetMentioned(ws: seq<Workload>, name: string)
    requires name !in FirstNames(ws)
    ensures Occurrences(ws, name) == []
  {
    FirstNamesAre(ws);
    OccursIff(ws, name);
  }

  lemma UpdatesStep(ts: seq<TwinView>, t: TwinView, contract: nat)
    ensures Updates(ts + [t], contract)
            == if t.operation == Update && t.deployment.contractId == contract then Updates(ts, contract) + [t]
               else Updates(ts, contract)
    ensures UpdateContracts(ts + [t])
            == UpdateContracts(ts) + if t.operation == Update then {t.deployment.contractId} else {}
  {
    var us := ts + [t];
    assert Front(us) == ts && Last(us) == t;
  }

  lemma AmongContracts(ts: seq<TwinView>, i: nat)
    requires i < |ts| && ts[i].operation == Update
    ensures ts[i].deployment.contractId in UpdateContracts(ts)
  {
    assert ts[i] in ts;
  }

  lemma UpdateContractsStep(ts: seq<TwinView>, t: TwinView)
    ensures UpdateContracts(ts + [t])
            == UpdateContracts(ts) + if t.operation == Update then {t.deployment.contractId} else {}
  {
  }

  lemma ViewsConcat(a: seq<TwinDeployment>, b: seq<TwinDeployment>)
    ensures Views(a + b) == Views(a) + Views(b)
  {
  }

  lemma MergeIs(ts: seq<TwinView>, nodeOf: map<nat, NodeId>)
    ensures Planning.Merge(ts, nodeOf)
            == Planning.DeployMerge(ts)
               + (Without(Planning.UpdateMerge(ts, nodeOf), DeletedContracts(ts)) + Deletes(ts))
  {
  }

  lemma ViewsStep(tds: seq<TwinDeployment>, t: TwinDeployment)
    ensures Views(tds + [t]) == Views(tds) + [t.View()]
  {
  }

  /** An operation that is not an update of contract `c` leaves that contract's group as it is. */
  lemma GroupSkip(group: seq<TwinDeployment>, c: nat, tds: seq<TwinDeployment>, t: TwinDeployment)
    requires GroupOk(group, c, tds)
    requires t.operation != Update || t.deployment.contractId != c
    ensures GroupOk(group, c, tds + [t])
  {
    ViewsStep(tds, t);
    UpdatesStep(Views(tds), t.View(), c);
  }

  lemma GroupGrows(group: seq<TwinDeployment>, c: nat, tds: seq<TwinDeployment>, t: TwinDeployment)
    requires if group == [] then c !in UpdateContracts(Views(tds)) else GroupOk(group, c, tds)
    requires t.operation == Update && t.deployment.contractId == c && t !in tds
    ensures GroupOk(group + [t], c, tds + [t])
  {
    if group == [] {
      HasUpdates(Views(tds), c, 0);
      assert Views(group) == Updates(Views(tds), c);
    }
    ViewsStep(tds, t);
    ViewsStep(group, t);
    UpdatesStep(Views(tds), t.View(), c);
    assert Front(group + [t]) == group && t !in group;
    DistinctFront(group + [t]);
  }

  lemma GroupsSkip(groups: map<nat, seq<TwinDeployment>>, tds: seq<TwinDeployment>, t: TwinDeployment)
    requires GroupsOk(groups, tds) && t.operation != Update
    ensures GroupsOk(groups, tds + [t])
  {
    ViewsStep(tds, t);
    UpdateContractsStep(Views(tds), t.View());
    forall k | k in groups ensures GroupOk(groups[k], k, tds + [t]) {
      GroupSkip(groups[k], k, tds, t);
    }
  }

  lemma GroupsGrow(groups: map<nat, seq<TwinDeployment>>, tds: seq<TwinDeployment>, t: TwinDeployment,
                   group: seq<TwinDeployment>)
    requires GroupsOk(groups, tds) && t !in tds && t.operation == Update
    requires group == if t.deployment.contractId in groups then groups[t.deployment.contractId] else []
    ensures GroupsOk(groups[t.deployment.contractId := group + [t]], tds + [t])
  {
    var c := t.deployment.contractId;
    ViewsStep(tds, t);
    UpdateContractsStep(Views(tds), t.View());
    forall k | k in groups && k != c ensures GroupOk(groups[k], k, tds + [t]) {
      GroupSkip(groups[k], k, tds, t);
    }
    GroupGrows(group, c, tds, t);
  }

  lemma GroupsApart(listed: seq<seq<TwinDeployment>>, contracts: seq<nat>, tds: seq<TwinDeployment>)
    requires |listed| == |contracts| && forall k :: 0 <= k < |listed| ==> GroupOk(listed[k], contracts[k], tds)
    requires forall j, k :: 0 <= j < k < |contracts| ==> contracts[j] < contracts[k]
    ensures Apart(listed, UpdatesFor(Views(tds), contracts))
  {
    forall j, k | 0 <= j < |listed| && 0 <= k < |listed| && j != k ensures listed[j][0] !in listed[k] {
      assert GroupOk(listed[j], contracts[j], tds) && GroupOk(listed[k], contracts[k], tds);
      assert listed[j][0] in listed[j] && contracts[j] != contracts[k];
    }
  }

  ghost function UpdatesFor(ts: seq<TwinView>, contracts: seq<nat>): seq<seq<TwinView>> {
    seq(|contracts|, k requires 0 <= k < |contracts| => Updates(ts, contracts[k]))
  }

  ghost function Everyone(groups: seq<seq<TwinDeployment>>): (all: set<TwinDeployment>)
    ensures forall k :: 0 <= k < |groups| ==> forall t :: t in groups[k] ==> t in all
  {
    set k, t | 0 <= k < |groups| && t in groups[k] :: t
  }

  /** Groups of planned operations with these views; none holds the first of another. */
  ghost predicate Apart(groups: seq<seq<TwinDeployment>>, views: seq<seq<TwinView>>)
    reads Everyone(groups)
  {
    && |groups| == |views|
    && (forall k :: 0 <= k < |groups| ==> groups[k] != [] && Distinct(groups[k]) && Views(groups[k]) == views[k])
    && forall j, k :: 0 <= j < |groups| && 0 <= k < |groups| && j != k ==> groups[j][0] !in groups[k]
  }

  /** Group by group, `latest` is what its updates come to on its node. */
  ghost predicate AllLatest(views: seq<seq<TwinView>>, nodes: seq<NodeId>, latest: seq<TwinView>) {
    && |views| == |nodes| == |latest|
    && forall k :: 0 <= k < |views| ==>
         views[k] != [] && latest[k] == VersionMerge.UpdateToLatest(Located(views[k], nodes[k]))
  }

  lemma UpdatesAreLatest(ts: seq<TwinView>, nodeOf: map<nat, NodeId>, contracts: seq<nat>, nodes: seq<NodeId>)
    requires contracts == Ascending(UpdateContracts(ts)) && UpdateContracts(ts) <= nodeOf.Keys
    requires |nodes| == |contracts|
             && forall k :: 0 <= k < |contracts| ==> contracts[k] in nodeOf && nodes[k] == nodeOf[contracts[k]]
    ensures AllLatest(UpdatesFor(ts, contracts), nodes, Planning.UpdateMerge(ts, nodeOf))
  {
    UpdatedForEach(ts, nodeOf, contracts);
  }

  /** Folding deploys leaves every update and every delete as it was. */
  predicate OnlyDeploysDiffer(ts: seq<TwinView>, us: seq<TwinView>) {
    |ts| == |us| && forall i :: 0 <= i < |ts| ==>
      ts[i].operation == us[i].operation && (ts[i].operation != Deploy ==> ts[i] == us[i])
  }

  lemma {:induction false} SameGroups(ts: seq<TwinView>, us: seq<TwinView>, c: nat)
    requires OnlyDeploysDiffer(ts, us)
    ensures Updates(ts, c) == Updates(us, c)
  {
    if ts != [] {
      SameGroups(Front(ts), Front(us), c);
    }
  }

  lemma {:induction false} SameDeletes(ts: seq<TwinView>, us: seq<TwinView>)
    requires OnlyDeploysDiffer(ts, us)
    ensures Deletes(ts) == Deletes(us) && DeletedContracts(ts) == DeletedContracts(us)
  {
    if ts != [] {
      SameDeletes(Front(ts), Front(us));
      assert ts == Front(ts) + [Last(ts)] && us == Front(us) + [Last(us)];
    }
  }

  lemma {:induction false} SameUpdatedFor(ts: seq<TwinView>, us: seq<TwinView>, nodeOf: map<nat, NodeId>,
                                          contracts: seq<nat>)
    requires OnlyDeploysDiffer(ts, us)
    ensures UpdatedFor(ts, nodeOf, contracts) == UpdatedFor(us, nodeOf, contracts)
  {
    if contracts != [] {
      SameUpdatedFor(ts, us, nodeOf, Front(contracts));
      SameGroups(ts, us, Last(contracts));
    }
  }

  lemma SameUpdates(ts: seq<TwinView>, us: seq<TwinView>, nodeOf: map<nat, NodeId>)
    requires OnlyDeploysDiffer(ts, us)
    ensures UpdateContracts(ts) == UpdateContracts(us)
            && Planning.UpdateMerge(ts, nodeOf) == Planning.UpdateMerge(us, nodeOf)
  {
    forall c: nat ensures c in UpdateContracts(ts) <==> c in UpdateContracts(us) {
      SameGroups(ts, us, c);
      HasUpdates(ts, c, 0);
      HasUpdates(us, c, 0);
    }
    assert UpdateContracts(ts) == UpdateContracts(us);
    SameUpdatedFor(ts, us, nodeOf, Ascending(UpdateContracts(ts)));
  }

  /** Once a workload has failed, the rest of the poll does not matter. */
  lemma {:induction false} CountFails(remotes: seq<Remote>, targets: seq<Workload>, n: nat)
    requires n <= |remotes| && ReadyCount(remotes[..n], targets).Err?
    ensures ReadyCount(remotes, targets) == ReadyCount(remotes[..n], targets)
    decreases |remotes| - n
  {
    if n < |remotes| {
      TakeStep(remotes, n);
      CountFails(remotes, targets, n + 1);
    } else {
      TakeAll(remotes);
    }
  }

  lemma {:induction false} WaitEnds(snapshots: seq<seq<Remote>>, targets: seq<Workload>, n: nat)
    requires n <= |snapshots| && Wait(snapshots[..n], targets) != Err(TimedOut)
    ensures Wait(snapshots, targets) == Wait(snapshots[..n], targets)
    decreases |snapshots| - n
  {
    if n < |snapshots| {
      TakeStep(snapshots, n);
      WaitEnds(snapshots, targets, n + 1);
    } else {
      TakeAll(snapshots);
    }
  }

  datatype PlanError = ContractNotFound(contractId: nat) | NotEnoughResources(nodeId: NodeId)

  class TwinDeploymentHandler {

    // ----- Deploys

    method DeployMerge(tds: seq<TwinDeployment>) returns (merged: seq<TwinDeployment>)
      requires Distinct(tds)
      modifies tds
      ensures Views(merged) == Planning.DeployMerge(old(Views(tds)))
      ensures forall t :: t in merged ==> t in tds && t.operation == Deploy
      ensures forall t :: t in tds && t.operation != Deploy ==> t.View() == old(t.View())
    {
      ghost var views := Views(tds);
      var byNode := FoldDeploys(tds);
      forall node | node in byNode ensures byNode[node].operation == Deploy {
        HasDeploys(views, node);
      }
      merged := InNodeOrder(byNode, tds, views);
    }

    /** The kept deploys in the order their node ids are listed. */
    method InNodeOrder(byNode: map<NodeId, TwinDeployment>, ghost tds: seq<TwinDeployment>, ghost views: seq<TwinView>)
      returns (merged: seq<TwinDeployment>)
      requires byNode.Keys == DeployNodes(views) && Folded(byNode, tds, views)
      ensures Views(merged) == Planning.DeployMerge(views)
      ensures forall t :: t in merged ==> t in byNode.Values
    {
      var nodes := Ascending(byNode.Keys);
      assert forall k :: 0 <= k < |nodes| ==> nodes[k] in nodes;
      merged := Listed(byNode, nodes);
      NodesInOrder(byNode, tds, views, nodes, merged);
    }

    method Listed(byNode: map<NodeId, TwinDeployment>, nodes: seq<NodeId>) returns (merged: seq<TwinDeployment>)
      requires forall k :: 0 <= k < |nodes| ==> nodes[k] in byNode
      ensures |merged| == |nodes| && forall k :: 0 <= k < |merged| ==> merged[k] == byNode[nodes[k]]
      ensures forall t :: t in merged ==> t in byNode.Values
    {
      merged := [];
      for i := 0 to |nodes|
        invariant |merged| == i && forall k :: 0 <= k < i ==> merged[k] == byNode[nodes[k]]
      {
        merged := merged + [byNode[nodes[i]]];
      }
    }

    // ----- Updates

    /** All workloads of the updates by name, with the totals over the updates. */
    method GroupByName(tds: seq<TwinDeployment>)
      returns (names: seq<string>, byName: map<string, seq<Workload>>, publicIps: nat, network: Option<string>)
      ensures names == FirstNames(Gather(Views(tds)))
      ensures forall name :: name in names ==> name in byName && byName[name] == Occurrences(Gather(Views(tds)), name)
      ensures publicIps == SumIps(Views(tds)) && network == FirstNetwork(Views(tds))
    {
      var views := Views(tds);
      names, byName, publicIps, network := [], map[], 0, None;
      for i := 0 to |tds|
        invariant names == FirstNames(Gather(views[..i])) && Indexed(names, byName, Gather(views[..i]))
        invariant publicIps == SumIps(views[..i]) && network == FirstNetwork(views[..i])
      {
        TakeStep(views, i);
        names, byName := GroupOwn(tds[i].deployment.workloads, names, byName, Gather(views[..i]));
        publicIps := publicIps + tds[i].publicIps;
        if network.None? && tds[i].network.Some? {
          network := tds[i].network;
        }
      }
      TakeAll(views);
    }

    /** The inner loop: one update's workloads by name. */
    method GroupOwn(own: seq<Workload>, names: seq<string>, byName: map<string, seq<Workload>>,
                    ghost before: seq<Workload>)
      returns (names': seq<string>, byName': map<string, seq<Workload>>)
      requires names == FirstNames(before) && Indexed(names, byName, before)
      ensures names' == FirstNames(before + own) && Indexed(names', byName', before + own)
    {
      names', byName' := names, byName;
      assert before + own[..0] == before;
      for k := 0 to |own|
        invariant names' == FirstNames(before + own[..k]) && Indexed(names', byName', before + own[..k])
      {
        var w := own[k];
        assert before + own[..k + 1] == (before + own[..k]) + [w];
        GatherStep(before + own[..k], w);
        IndexedStep(names', byName', before + own[..k], w);
        var occ := if w.name in byName' then byName'[w.name] + [w] else [w];
        if w.name !in byName' {
          names' := names' + [w.name];
        }
        byName' := byName'[w.name := occ];
      }
      TakeAll(own);
    }

    method PickLatest(occ: seq<Workload>) returns (w: Workload)
      requires occ != []
      ensures w == Latest(occ)
    {
      w := occ[0];
      for i := 0 to |occ|
        invariant i > 0 ==> w == Latest(occ[..i])
        invariant i == 0 ==> w == occ[0]
      {
        TakeStep(occ, i);
        if w.version < occ[i].version {
          w := occ[i];
        }
      }
      TakeAll(occ);
    }

    /** Merges updates of one contract into the first of them. */
    method UpdateToLatest(tds: seq<TwinDeployment>) returns (r: TwinDeployment?)
      modifies tds[..if tds == [] then 0 else 1]
      ensures r == null <==> tds == []
      ensures r != null ==> r == tds[0] && r.View() == VersionMerge.UpdateToLatest(old(Views(tds)))
    {
      if |tds| == 0 {
        return null;
      } else if |tds| == 1 {
        tds[0].deployment := tds[0].deployment.(version := tds[0].deployment.version + 1);
        return tds[0];
      }
      ghost var views := Views(tds);
      var names, byName, publicIps, network := GroupByName(tds);
      var workloads: seq<Workload> := [];
      for i := 0 to |names|
        modifies {}
        invariant workloads == Surviving(views, names[..i])
      {
        TakeStep(names, i);
        assert names[i] in names;
        var occ := byName[names[i]];
        FirstNamesAre(Gather(views));
        OccursIff(Gather(views), names[i]);
        if |occ| < |tds| && occ[0].version <= tds[0].deployment.version {
          continue;
        }
        var w := PickLatest(occ);
        workloads := workloads + [w];
      }
      TakeAll(names);
      var d := tds[0];
      d.deployment := d.deployment.(workloads := workloads, version := d.deployment.version + 1);
      d.publicIps := publicIps;
      d.network := network;
      return d;
    }

    /** Groups the updates by contract. A group's first member moves to the contract's node later, before the
        group is merged: nothing looks at it in between. */
    method GroupUpdates(tds: seq<TwinDeployment>, nodeOf: map<nat, NodeId>)
      returns (r: Result<map<nat, seq<TwinDeployment>>, PlanError>)
      requires Distinct(tds)
      ensures r.Ok? <==> UpdateContracts(Views(tds)) <= nodeOf.Keys
      ensures r.Err? ==> r.error.ContractNotFound? && r.error.contractId in UpdateContracts(Views(tds)) - nodeOf.Keys
      ensures r.Ok? ==> GroupsOk(r.value, tds)
    {
      var views := Views(tds);
      var groups: map<nat, seq<TwinDeployment>> := map[];
      for i := 0 to |tds|
        invariant GroupsOk(groups, tds[..i]) && groups.Keys <= nodeOf.Keys
      {
        TakeStep(tds, i);
        var t := tds[i];
        if t.operation != Update {
          GroupsSkip(groups, tds[..i], t);
          continue;
        }
        var c := t.deployment.contractId;
        if c !in nodeOf {
          AmongContracts(views, i);
          return Err(ContractNotFound(c));
        }
        var group := if c in groups then groups[c] else [];
        GroupsGrow(groups, tds[..i], t, group);
        groups := groups[c := group + [t]];
      }
      TakeAll(tds);
      return Ok(groups);
    }

    method MergeGroup(group: seq<TwinDeployment>, node: NodeId) returns (first: TwinDeployment)
      requires group != [] && Distinct(group)
      modifies group[0]
      ensures first == group[0] && first.View() == VersionMerge.UpdateToLatest(Located(old(Views(group)), node))
    {
      first := group[0];
      ghost var was := Views(group);
      first.nodeId := node;
      assert Views(group) == Located(was, node);
      var merged := UpdateToLatest(group);
    }

    /** Merges group after group; groups share no member, so merging one leaves the others as they were. */
    method MergeEach(groups: seq<seq<TwinDeployment>>, nodes: seq<NodeId>, ghost views: seq<seq<TwinView>>,
                     ghost latest: seq<TwinView>)
      returns (merged: seq<TwinDeployment>)
      requires Apart(groups, views) && AllLatest(views, nodes, latest)
      modifies set k | 0 <= k < |groups| :: groups[k][0]
      ensures Views(merged) == latest
      ensures |merged| == |groups| && forall k :: 0 <= k < |groups| ==> merged[k] == groups[k][0]
    {
      merged := [];
      for i := 0 to |groups|
        invariant |merged| == i
        invariant forall k :: 0 <= k < i ==> merged[k] == groups[k][0] && groups[k][0].View() == latest[k]
        invariant forall k :: i <= k < |groups| ==> Views(groups[k]) == views[k]
      {
        forall k | 0 <= k < |groups| && k != i ensures groups[i][0] !in groups[k] && groups[i][0] != groups[k][0] {
          assert groups[k][0] in groups[k];
        }
        var first := MergeGroup(groups[i], nodes[i]);
        assert first.View() == latest[i];
        merged := merged + [first];
      }
    }

    /** The groups in the order their contract ids are listed. */
    method ListGroups(groups: map<nat, seq<TwinDeployment>>, nodeOf: map<nat, NodeId>, contracts: seq<nat>)
      returns (listed: seq<seq<TwinDeployment>>, nodes: seq<NodeId>)
      requires forall c :: c in contracts ==> c in groups && c in nodeOf
      ensures |listed| == |nodes| == |contracts|
      ensures forall k :: 0 <= k < |contracts| ==> listed[k] == groups[contracts[k]] && nodes[k] == nodeOf[contracts[k]]
    {
      listed, nodes := [], [];
      for i := 0 to |contracts|
        invariant |listed| == |nodes| == i
        invariant forall k :: 0 <= k < i ==> contracts[k] in groups && listed[k] == groups[contracts[k]]
        invariant forall k :: 0 <= k < i ==> contracts[k] in nodeOf && nodes[k] == nodeOf[contracts[k]]
      {
        assert contracts[i] in contracts;
        listed, nodes := listed + [groups[contracts[i]]], nodes + [nodeOf[contracts[i]]];
      }
    }

    method ArrangeGroups(groups: map<nat, seq<TwinDeployment>>, nodeOf: map<nat, NodeId>,
                         ghost tds: seq<TwinDeployment>)
      returns (listed: seq<seq<TwinDeployment>>, nodes: seq<NodeId>, ghost each: seq<seq<TwinView>>)
      requires GroupsOk(groups, tds) && groups.Keys <= nodeOf.Keys
      ensures Apart(listed, each) && AllLatest(each, nodes, Planning.UpdateMerge(Views(tds), nodeOf))
      ensures forall k :: 0 <= k < |listed| ==> listed[k][0] in Members(groups)
    {
      ghost var views := Views(tds);
      var contracts := Ascending(groups.Keys);
      listed, nodes := ListGroups(groups, nodeOf, contracts);
      each := UpdatesFor(views, contracts);
      forall k | 0 <= k < |contracts|
        ensures GroupOk(listed[k], contracts[k], tds) && listed[k][0] in Members(groups)
      {
        assert contracts[k] in contracts && contracts[k] in groups;
      }
      GroupsApart(listed, contracts, tds);
      UpdatesAreLatest(views, nodeOf, contracts, nodes);
    }

    method MergeGroups(groups: map<nat, seq<TwinDeployment>>, nodeOf: map<nat, NodeId>, ghost tds: seq<TwinDeployment>)
      returns (merged: seq<TwinDeployment>)
      requires GroupsOk(groups, tds) && groups.Keys <= nodeOf.Keys
      modifies Members(groups)
      ensures Views(merged) == Planning.UpdateMerge(old(Views(tds)), nodeOf)
      ensures forall t :: t in merged ==> t in Members(groups)
    {
      ghost var latest := Planning.UpdateMerge(Views(tds), nodeOf);
      var listed, nodes, each := ArrangeGroups(groups, nodeOf, tds);
      merged := MergeEach(listed, nodes, each, latest);
    }

    method UpdateMerge(tds: seq<TwinDeployment>, nodeOf: map<nat, NodeId>)
      returns (r: Result<seq<TwinDeployment>, PlanError>)
      requires Distinct(tds)
      modifies tds
      ensures r.Ok? <==> UpdateContracts(old(Views(tds))) <= nodeOf.Keys
      ensures r.Err? ==>
                r.error.ContractNotFound? && r.error.contractId in UpdateContracts(old(Views(tds))) - nodeOf.Keys
      ensures r.Ok? ==> Views(r.value) == Planning.UpdateMerge(old(Views(tds)), nodeOf)
      ensures r.Ok? ==> forall t :: t in r.value ==> t in tds && t.operation == Update
      ensures forall t :: t in tds && t.operation != Update ==> t.View() == old(t.View())
    {
      var groups := GroupUpdates(tds, nodeOf);
      if groups.Err? {
        return Err(groups.error);
      }
      forall t | t in Members(groups.value) ensures t in tds && t.operation == Update {
        var c :| c in groups.value && t in groups.value[c];
        assert GroupOk(groups.value[c], c, tds);
      }
      var merged := MergeGroups(groups.value, nodeOf, tds);
      return Ok(merged);
    }

    // ----- The whole plan

    method FilterDeletes(tds: seq<TwinDeployment>) returns (deletes: seq<TwinDeployment>, contracts: set<nat>)
      ensures Views(deletes) == Deletes(Views(tds)) && contracts == DeletedContracts(Views(tds))
      ensures forall t :: t in deletes ==> t in tds && t.operation == Delete
    {
      var views := Views(tds);
      deletes, contracts := [], {};
      for i := 0 to |tds|
        invariant Views(deletes) == Deletes(views[..i]) && contracts == DeletedContracts(views[..i])
        invariant forall t :: t in deletes ==> t in tds && t.operation == Delete
      {
        TakeStep(views, i);
        if tds[i].operation == Delete {
          ViewsStep(deletes, tds[i]);
          deletes, contracts := deletes + [tds[i]], contracts + {tds[i].deployment.contractId};
        }
      }
      TakeAll(views);
    }

    method FilterWithout(tds: seq<TwinDeployment>, contracts: set<nat>) returns (kept: seq<TwinDeployment>)
      ensures Views(kept) == Without(Views(tds), contracts)
      ensures forall t :: t in kept ==> t in tds
    {
      var views := Views(tds);
      kept := [];
      for i := 0 to |tds|
        invariant Views(kept) == Without(views[..i], contracts)
        invariant forall t :: t in kept ==> t in tds
      {
        TakeStep(views, i);
        if tds[i].deployment.contractId !in contracts {
          ViewsStep(kept, tds[i]);
          kept := kept + [tds[i]];
        }
      }
      TakeAll(views);
    }

    /** The updates that are not of a deleted contract, then the deletes. */
    method MergeRest(tds: seq<TwinDeployment>, nodeOf: map<nat, NodeId>)
      returns (r: Result<seq<TwinDeployment>, PlanError>)
      requires Distinct(tds)
      modifies tds
      ensures r.Ok? <==> UpdateContracts(old(Views(tds))) <= nodeOf.Keys
      ensures r.Ok? ==>
                Views(r.value)
                == Without(Planning.UpdateMerge(old(Views(tds)), nodeOf), DeletedContracts(old(Views(tds))))
                                          + Deletes(old(Views(tds)))
      ensures r.Err? ==> r.error.ContractNotFound?
      ensures forall t :: t in tds && t.operation == Deploy ==> t.View() == old(t.View())
    {
      var deletes, contracts := FilterDeletes(tds);
      ghost var gone := Views(deletes);
      var updated := UpdateMerge(tds, nodeOf);
      if updated.Err? {
        return Err(updated.error);
      }
      var kept := FilterWithout(updated.value, contracts);
      forall k | 0 <= k < |deletes| ensures deletes[k].View() == gone[k] {
        assert deletes[k] in deletes;
      }
      assert Views(deletes) == gone;
      ViewsConcat(kept, deletes);
      return Ok(kept + deletes);
    }

    method Merge(tds: seq<TwinDeployment>, nodeOf: map<nat, NodeId>) returns (r: Result<seq<TwinDeployment>, PlanError>)
      requires Distinct(tds)
      modifies tds
      ensures r.Ok? <==> UpdateContracts(old(Views(tds))) <= nodeOf.Keys
      ensures r.Ok? ==> Views(r.value) == Planning.Merge(old(Views(tds)), nodeOf)
      ensures r.Err? ==> r.error.ContractNotFound?
    {
      ghost var views := Views(tds);
      var deploys := DeployMerge(tds);
      SameUpdates(views, Views(tds), nodeOf);
      SameDeletes(views, Views(tds));
      ghost var joined := Views(deploys);
      var rest := MergeRest(tds, nodeOf);
      if rest.Err? {
        return Err(rest.error);
      }
      forall k | 0 <= k < |deploys| ensures deploys[k].View() == joined[k] {
        assert deploys[k] in deploys;
      }
      assert Views(deploys) == joined;
      ViewsConcat(deploys, rest.value);
      MergeIs(views, nodeOf);
      return Ok(deploys + rest.value);
    }

    // ----- Capacity

    method SumDemand(workloads: seq<Workload>) returns (need: Resources)
      ensures need == Demand(workloads)
    {
      var hru, sru, mru := 0, 0, 0;
      for i := 0 to |workloads|
        invariant Resources(hru, sru, mru) == Demand(workloads[..i])
      {
        TakeStep(workloads, i);
        var w := workloads[i];
        if w.wtype == Zmachine || w.wtype == Zmount {
          sru := sru + Size(w);
        }
        if w.wtype == Zdb {
          hru := hru + Size(w);
        }
        if w.wtype == Zmachine {
          mru := mru + Memory(w);
        }
      }
      TakeAll(workloads);
      return Resources(hru, sru, mru);
    }

    method CheckCapacity(t: TwinDeployment, free: map<NodeId, Resources>) returns (fits: bool)
      ensures fits <==> Fits(free, t.View())
    {
      var workloads := Charged(t.View());
      var need := SumDemand(workloads);
      return workloads == [] || (t.nodeId in free && Within(need, free[t.nodeId]));
    }

    /** Fails at the first operation whose node cannot take it. */
    method CheckNodesCapacity(tds: seq<TwinDeployment>, free: map<NodeId, Resources>) returns (r: Result<(), PlanError>)
      ensures r.Ok? <==> forall t :: t in Views(tds) ==> Fits(free, t)
      ensures r.Err? ==> r.error.NotEnoughResources?
                         && exists t :: t in Views(tds) && t.nodeId == r.error.nodeId && !Fits(free, t)
    {
      for i := 0 to |tds|
        invariant forall k :: 0 <= k < i ==> Fits(free, Views(tds)[k])
      {
        var fits := CheckCapacity(tds[i], free);
        assert Views(tds)[i] == tds[i].View() && Views(tds)[i] in Views(tds);
        if !fits {
          return Err(NotEnoughResources(tds[i].nodeId));
        }
      }
      return Ok(());
    }

    // ----- Waiting

    /** Looks for the target of that name; a report without one counts for nothing. */
    method CheckOne(remote: Remote, targets: seq<Workload>) returns (found: Result<bool, PollError>)
      ensures var k := TargetIndex(targets, remote.name);
              found == if k == |targets| then Ok(false) else Check(remote, targets[k])
    {
      for k := 0 to |targets|
        invariant forall j :: 0 <= j < k ==> targets[j].name != remote.name
      {
        if targets[k].name == remote.name {
          assert TargetIndex(targets, remote.name) == k;
          return Check(remote, targets[k]);
        }
      }
      return Ok(false);
    }

    method CountReady(remotes: seq<Remote>, targets: seq<Workload>) returns (r: Result<nat, PollError>)
      ensures r == ReadyCount(remotes, targets)
    {
      var ready := 0;
      for i := 0 to |remotes|
        invariant ReadyCount(remotes[..i], targets) == Ok(ready)
      {
        TakeStep(remotes, i);
        var found := CheckOne(remotes[i], targets);
        if found.Err? {
          CountFails(remotes, targets, i + 1);
          return Err(found.error);
        }
        if found.value {
          ready := ready + 1;
        }
      }
      TakeAll(remotes);
      return Ok(ready);
    }

    /** Polls until the deployment is there in full, a workload failed, or the polls run out. */
    method WaitForDeployment(snapshots: seq<seq<Remote>>, targets: seq<Workload>) returns (r: Result<nat, PollError>)
      ensures r == Wait(snapshots, targets)
    {
      for i := 0 to |snapshots|
        invariant Wait(snapshots[..i], targets) == Err(TimedOut)
      {
        TakeStep(snapshots, i);
        if |snapshots[i]| != |targets| {
          continue;
        }
        var count := CountReady(snapshots[i], targets);
        if count.Err? {
          PollNeverTimesOut(snapshots[i], targets);
          WaitEnds(snapshots, targets, i + 1);
          return Err(count.error);
        }
        if count.value == |targets| {
          WaitEnds(snapshots, targets, i + 1);
          return Ok(i);
        }
      }
      TakeAll(snapshots);
      return Err(TimedOut);
    }

    /** Folds every deploy for a node into the first one for it. */
    method FoldDeploys(tds: seq<TwinDeployment>) returns (byNode: map<NodeId, TwinDeployment>)
      requires Distinct(tds)
      modifies tds
      ensures byNode.Keys == DeployNodes(old(Views(tds)))
      ensures forall node :: node in byNode ==> byNode[node] in tds && Deploys(old(Views(tds)), node) != []
                                                && byNode[node].View() == Joined(Deploys(old(Views(tds)), node))
      ensures forall t :: t in tds && t !in byNode.Values ==> t.View() == old(t.View())
    {
      ghost var views := Views(tds);
      byNode := map[];
      for i := 0 to |tds|
        invariant byNode.Keys == DeployNodes(views[..i]) && Folded(byNode, tds[..i], views[..i])
        invariant forall j :: 0 <= j < |tds| && tds[j] !in byNode.Values ==> tds[j].View() == views[j]
      {
        TakeStep(tds, i);
        TakeStep(views, i);
        NotFoldedYet(byNode, tds, i, views[..i]);
        assert tds[i].View() == views[i];
        byNode := FoldOne(byNode, tds[i], tds[..i], views[..i]);
      }
      TakeAll(views);
      TakeAll(tds);
    }

    /** One operation's turn: nothing but a deploy is folded. */
    method FoldOne(byNode: map<NodeId, TwinDeployment>, t: TwinDeployment,
                   ghost tds: seq<TwinDeployment>, ghost views: seq<TwinView>)
      returns (byNode': map<NodeId, TwinDeployment>)
      requires t !in tds && byNode.Keys == DeployNodes(views) && Folded(byNode, tds, views)
      modifies byNode.Values
      ensures byNode'.Keys == DeployNodes(views + [old(t.View())])
      ensures Folded(byNode', tds + [t], views + [old(t.View())])
      ensures forall node :: node in byNode ==> node in byNode' && byNode'[node] == byNode[node]
      ensures forall x :: x in byNode.Values ==> x in byNode'.Values
    {
      DeployNodesStep(views, t.View());
      if t.operation == Deploy {
        byNode' := Place(byNode, t, tds, views);
      } else {
        FoldedSkip(byNode, tds, t, views);
        byNode' := byNode;
      }
    }

    /** One more deploy: the first for its node is kept, a later one is folded into it. */
    method Place(byNode: map<NodeId, TwinDeployment>, t: TwinDeployment,
                 ghost tds: seq<TwinDeployment>, ghost views: seq<TwinView>)
      returns (byNode': map<NodeId, TwinDeployment>)
      requires t.operation == Deploy && t !in tds && byNode.Keys == DeployNodes(views) && Folded(byNode, tds, views)
      modifies byNode.Values
      ensures byNode'.Keys == byNode.Keys + {t.nodeId} && t.View() == old(t.View())
      ensures Folded(byNode', tds + [t], views + [t.View()])
      ensures forall node :: node in byNode ==> byNode'[node] == byNode[node]
      ensures t.nodeId !in byNode ==> byNode'[t.nodeId] == t
    {
      HasDeploys(views, t.nodeId);
      if t.nodeId in byNode {
        PlaceLater(byNode, t, tds, views);
        return byNode;
      }
      PlacedFirst(byNode, t, tds, views);
      return byNode[t.nodeId := t];
    }

    method PlaceLater(byNode: map<NodeId, TwinDeployment>, t: TwinDeployment,
                      ghost tds: seq<TwinDeployment>, ghost views: seq<TwinView>)
      requires t.operation == Deploy && t !in tds && Folded(byNode, tds, views) && t.nodeId in byNode
      modifies byNode.Values
      ensures t.View() == old(t.View()) && Folded(byNode, tds + [t], views + [t.View()])
    {
      ghost var own := t.View();
      forall node | node in byNode && node != t.nodeId ensures byNode[node] != byNode[t.nodeId] {
        HasDeploys(views, node);
        HasDeploys(views, t.nodeId);
      }
      FoldInto(byNode[t.nodeId], t);
      JoinedStep(Deploys(views, t.nodeId), own);
      forall node | node in byNode
        ensures byNode[node] in tds + [t] && Deploys(views + [own], node) != []
                && byNode[node].View() == Joined(Deploys(views + [own], node))
      {
        DeploysStep(views, own, node);
      }
    }

    method FoldInto(first: TwinDeployment, t: TwinDeployment)
      requires first != t
      modifies first
      ensures first.View() == var was := old(first.View());
                              was.(deployment := was.deployment.(workloads :=
                                     was.deployment.workloads + t.deployment.workloads),
                                   publicIps := was.publicIps + t.publicIps)
    {
      first.deployment := first.deployment.(workloads := first.deployment.workloads + t.deployment.workloads);
      first.publicIps := first.publicIps + t.publicIps;
    }
  }

  lemma NotFoldedYet(byNode: map<NodeId, TwinDeployment>, tds: seq<TwinDeployment>, i: nat, views: seq<TwinView>)
    requires Distinct(tds) && i < |tds| && Folded(byNode, tds[..i], views)
    ensures tds[i] !in tds[..i] && tds[i] !in byNode.Values
  {
  }

  lemma FoldedSkip(byNode: map<NodeId, TwinDeployment>, tds: seq<TwinDeployment>, t: TwinDeployment,
                   views: seq<TwinView>)
    requires t.operation != Deploy && Folded(byNode, tds, views)
    ensures Folded(byNode, tds + [t], views + [t.View()])
  {
    forall node | node in byNode
      ensures byNode[node] in tds + [t] && Deploys(views + [t.View()], node) == Deploys(views, node)
    {
      DeploysStep(views, t.View(), node);
    }
  }

  /** A group holds the updates of one contract. */
  ghost predicate GroupOk(group: seq<TwinDeployment>, c: nat, tds: seq<TwinDeployment>)
    reads group, tds
  {
    && group != [] && Distinct(group) && Views(group) == Updates(Views(tds), c)
    && forall t :: t in group ==> t in tds && t.operation == Update && t.deployment.contractId == c
  }

  ghost function Members(groups: map<nat, seq<TwinDeployment>>): (members: set<TwinDeployment>)
    ensures forall c :: c in groups ==> forall t :: t in groups[c] ==> t in members
  {
    set c, t | c in groups && t in groups[c] :: t
  }

  ghost predicate GroupsOk(groups: map<nat, seq<TwinDeployment>>, tds: seq<TwinDeployment>)
    reads Members(groups), tds
  {
    groups.Keys == UpdateContracts(Views(tds)) && forall c :: c in groups ==> GroupOk(groups[c], c, tds)
  }

  lemma PlacedFirst(byNode: map<NodeId, TwinDeployment>, t: TwinDeployment, tds: seq<TwinDeployment>,
                    views: seq<TwinView>)
    requires t.operation == Deploy && t.nodeId !in byNode && Deploys(views, t.nodeId) == []
             && Folded(byNode, tds, views)
    ensures Folded(byNode[t.nodeId := t], tds + [t], views + [t.View()])
  {
    var own, byNode' := t.View(), byNode[t.nodeId := t];
    JoinedOne(own);
    assert t in tds + [t];
    forall node | node in byNode'
      ensures byNode'[node] in tds + [t] && Deploys(views + [own], node) != []
              && byNode'[node].View() == Joined(Deploys(views + [own], node))
    {
      DeploysStep(views, own, node);
      assert node in byNode ==> byNode[node] in tds + [t];
    }
  }

  lemma NodesInOrder(byNode: map<NodeId, TwinDeployment>, tds: seq<TwinDeployment>, views: seq<TwinView>,
                     nodes: seq<NodeId>, merged: seq<TwinDeployment>)
    requires Folded(byNode, tds, views) && byNode.Keys == DeployNodes(views) && nodes == Ascending(DeployNodes(views))
    requires forall k :: 0 <= k < |nodes| ==> nodes[k] in byNode
    requires |merged| == |nodes| && forall k :: 0 <= k < |merged| ==> merged[k] == byNode[nodes[k]]
    ensures Views(merged) == Planning.DeployMerge(views)
  {
    JoinedForEach(views, nodes);
    forall k | 0 <= k < |merged| ensures Views(merged)[k] == Planning.DeployMerge(views)[k] {
      assert merged[k].View() == Joined(Deploys(views, nodes[k]));
    }
  }

  /** The object kept for a node is among `tds` and holds all the node's deploys in `views`. */
  ghost predicate Folded(byNode: map<NodeId, TwinDeployment>, tds: seq<TwinDeployment>, views: seq<TwinView>)
    reads byNode.Values
  {
    forall node :: node in byNode ==>
      byNode[node] in tds && Deploys(views, node) != [] && byNode[node].View() == Joined(Deploys(views, node))
  }
}
