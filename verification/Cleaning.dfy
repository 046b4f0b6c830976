/** Which members a network keeps when machines go, and what is planned for it
    (`HighLevelBase._deleteMachineNetwork`). */
module Cleaning {
  import opened Lists
  import opened Overlay
  import opened Allocation
  import opened Decode
  import opened Workloads
  import opened Networks

  /** A network as it is stored: its members' records, the tables they published, and their deployments. */
  datatype StoredNetwork = StoredNetwork(
    nodes: seq<NodeView>, published: map<nat, seq<PublishedTable>>, deployments: seq<DeploymentView>)

  function SitesOf(nets: seq<NetView>): seq<Site> {
    seq(|nets|, i requires 0 <= i < |nets| => nets[i].site)
  }

  function LoadedState(stored: StoredNetwork): NetState {
    var nets := LoadedNets(stored.nodes, stored.published);
    NetState(LoadedNodes(stored.nodes, stored.published), SitesOf(nets), DecodePoints(nets, nets), [])
  }

  /** What a network is loaded as; one that is not stored is empty. */
  function StateOf(stored: map<string, StoredNetwork>, name: string): NetState {
    if name !in stored then NetState([], [], [], [])
    else LoadedState(stored[name])
  }

  predicate Loadable(stored: map<string, StoredNetwork>, name: string) {
    name in stored ==> forall n :: n in stored[name].nodes ==> n.contractId in stored[name].published
  }

  predicate HostsAccess(s: NetState, id: NodeId) {
    exists a :: a in s.accessPoints && a.nodeId == id
  }

  /** The addresses given back on a network by the machines deleted from it. */
  function FreedOn(machines: seq<Workload>, name: string): set<Ip> {
    set m | m in machines && m.data.MachineData? && m.data.network == name :: m.data.ip
  }

  // ----- Effects on pools and membership

  lemma {:induction false} NodeIndexConcat(a: seq<NodeView>, b: seq<NodeView>, x: NodeId)
    ensures NodeIndex(a + b, x) == if NodeIndex(a, x) < |a| then NodeIndex(a, x) else |a| + NodeIndex(b, x)
  {
    if a == [] {
      assert a + b == b;
    } else {
      assert (a + b)[1..] == a[1..] + b;
      NodeIndexConcat(a[1..], b, x);
    }
  }

  lemma {:induction false} OtherNodesPool(nodes: seq<NodeView>, id: NodeId, x: NodeId)
    requires x != id
    ensures NodeIps(OtherNodes(nodes, id), x) == NodeIps(nodes, x)
    ensures NodeIndex(OtherNodes(nodes, id), x) < |OtherNodes(nodes, id)| <==> NodeIndex(nodes, x) < |nodes|
  {
    if nodes != [] {
      var f, l := Front(nodes), [Last(nodes)];
      assert nodes == f + l;
      OtherNodesPool(f, id, x);
      NodeIndexConcat(f, l, x);
      NodeIndexConcat(OtherNodes(f, id), if l[0].nodeId != id then l else [], x);
    }
  }

  lemma {:induction false} OtherSitesMembers(sites: seq<Site>, id: NodeId, x: NodeId)
    ensures HasSite(OtherSites(sites, id), x) <==> HasSite(sites, x) && x != id
  {
    if sites != [] {
      var f, l := Front(sites), Last(sites);
      assert sites == f + [l];
      OtherSitesMembers(f, id, x);
      var others := OtherSites(f, id);
      assert HasSite(sites, x) <==> HasSite(f, x) || l.nodeId == x;
      assert l.nodeId != id ==> (HasSite(others + [l], x) <==> HasSite(others, x) || l.nodeId == x) by {
        assert l in others + [l];
        if s :| s in others && s.nodeId == x { assert s in others + [l]; }
      }
    }
  }

  // ----- One machine

  /** A node may go: no address is out, and it hosts no access point or is the only one left. */
  predicate Emptied(s: NetState, id: NodeId) {
    NodeIps(s.nodes, id) == [] && !(HostsAccess(s, id) && |s.nodes| != 1)
  }

  /** The state after one machine's address is given back, with the members this lets go. */
  function CleanStep(s: NetState, id: NodeId, ip: Ip): NetState {
    var t := Apply(s, ReleaseIp(id, ip));
    if !Emptied(t, id) then t else WithoutLast(Apply(t, DeleteNode(id)))
  }

  function WithoutLast(s: NetState): NetState {
    if |s.nodes| == 1 && NodeIps(s.nodes, s.nodes[0].nodeId) == [] then Apply(s, DeleteNode(s.nodes[0].nodeId)) else s
  }

  /** A member that stayed only lost the addresses given back on `id`. */
  ghost predicate PoolFrom(init: NetState, s: NetState, id: NodeId, freed: set<Ip>, x: NodeId) {
    HasSite(s.sites, x) ==>
      && HasSite(init.sites, x)
      && forall ip :: ip in NodeIps(s.nodes, x) <==> ip in NodeIps(init.nodes, x) && !(x == id && ip in freed)
  }

  /** A member left only after its whole pool was given back and, if it hosts access points, as the last one. */
  ghost predicate LeftEmpty(init: NetState, s: NetState, id: NodeId, freed: set<Ip>, x: NodeId) {
    HasSite(init.sites, x) && !HasSite(s.sites, x) ==>
      && (forall ip :: ip in NodeIps(init.nodes, x) ==> x == id && ip in freed)
      && (HostsAccess(init, x) ==> s.sites == [])
  }

  /** How a network differs from what it was, `freed` being the addresses given back on node `id`. */
  ghost predicate CleanedFrom(init: NetState, s: NetState, id: NodeId, freed: set<Ip>) {
    && Consistent(s) && s.accessPoints == init.accessPoints && s.reserved == []
    && forall x :: PoolFrom(init, s, id, freed, x) && LeftEmpty(init, s, id, freed, x)
  }

  /** Nothing that could go is left: the node still has addresses out, or hosts access points others need; and a
      last other member has addresses out. */
  ghost predicate NothingIdle(s: NetState, id: NodeId) {
    && (HasSite(s.sites, id) ==> NodeIps(s.nodes, id) != [] || (HostsAccess(s, id) && |s.nodes| != 1))
    && (!HasSite(s.sites, id) && |s.nodes| == 1 ==> NodeIps(s.nodes, s.nodes[0].nodeId) != [])
  }

  lemma ReleaseKeeps(init: NetState, s: NetState, id: NodeId, freed: set<Ip>, ip: Ip)
    requires CleanedFrom(init, s, id, freed)
    ensures CleanedFrom(init, Apply(s, ReleaseIp(id, ip)), id, freed + {ip})
  {
    var t := Apply(s, ReleaseIp(id, ip));
    DropIpConsistent(s, id, ip);
    forall x ensures PoolFrom(init, t, id, freed + {ip}, x) && LeftEmpty(init, t, id, freed + {ip}, x) {
      DropIpPool(s.nodes, id, ip, x);
      assert PoolFrom(init, s, id, freed, x) && LeftEmpty(init, s, id, freed, x);
    }
  }

  lemma SingleMember(s: NetState, id: NodeId)
    requires Consistent(s) && HasSite(s.sites, id) && |s.nodes| == 1
    ensures s.nodes[0].nodeId == id && s.sites[0].nodeId == id
  {
  }

  lemma DropKeepsFor(init: NetState, s: NetState, id: NodeId, freed: set<Ip>, gone: NodeId, x: NodeId)
    requires Consistent(s) && PoolFrom(init, s, id, freed, x) && LeftEmpty(init, s, id, freed, x)
    requires s.accessPoints == init.accessPoints
    requires HasSite(s.sites, gone) ==> NodeIps(s.nodes, gone) == [] && (HostsAccess(s, gone) ==> |s.nodes| == 1)
    ensures var t := Apply(s, DeleteNode(gone)); PoolFrom(init, t, id, freed, x) && LeftEmpty(init, t, id, freed, x)
  {
    OtherSitesMembers(s.sites, gone, x);
    if x != gone {
      OtherNodesPool(s.nodes, gone, x);
      assert s.sites == [] ==> OtherSites(s.sites, gone) == [];
    } else if HasSite(s.sites, gone) && HostsAccess(init, gone) {
      SingleMember(s, gone);
      assert s.sites == [s.sites[0]] && Front(s.sites) == [];
    }
  }

  lemma DropKeeps(init: NetState, s: NetState, id: NodeId, freed: set<Ip>, gone: NodeId)
    requires CleanedFrom(init, s, id, freed)
    requires HasSite(s.sites, gone) ==> NodeIps(s.nodes, gone) == [] && (HostsAccess(s, gone) ==> |s.nodes| == 1)
    ensures CleanedFrom(init, Apply(s, DeleteNode(gone)), id, freed)
  {
    var t := Apply(s, DeleteNode(gone));
    DeleteConsistent(s, gone);
    forall x ensures PoolFrom(init, t, id, freed, x) && LeftEmpty(init, t, id, freed, x) {
      DropKeepsFor(init, s, id, freed, gone, x);
    }
  }

  lemma NodeDropped(s: NetState, id: NodeId)
    ensures !HasSite(Apply(s, DeleteNode(id)).sites, id)
  {
    OtherSitesMembers(s.sites, id, id);
  }

  lemma CleanStepKeeps(init: NetState, s: NetState, id: NodeId, freed: set<Ip>, ip: Ip)
    requires CleanedFrom(init, s, id, freed)
    ensures CleanedFrom(init, CleanStep(s, id, ip), id, freed + {ip})
  {
    var t := Apply(s, ReleaseIp(id, ip));
    ReleaseKeeps(init, s, id, freed, ip);
    if NodeIps(t.nodes, id) == [] && !(HostsAccess(t, id) && |t.nodes| != 1) {
      DropKeeps(init, t, id, freed + {ip}, id);
      var u := Apply(t, DeleteNode(id));
      if |u.nodes| == 1 && NodeIps(u.nodes, u.nodes[0].nodeId) == [] {
        DropKeeps(init, u, id, freed + {ip}, u.nodes[0].nodeId);
      }
    }
  }

  lemma SingleDropped(nodes: seq<NodeView>)
    requires |nodes| == 1
    ensures OtherNodes(nodes, nodes[0].nodeId) == []
  {
    var none: seq<NodeView> := [];
    assert Front(nodes) == none && OtherNodes(none, nodes[0].nodeId) == none;
  }

  lemma DropIsThorough(t: NetState, id: NodeId)
    ensures NothingIdle(WithoutLast(Apply(t, DeleteNode(id))), id)
  {
    var u := Apply(t, DeleteNode(id));
    NodeDropped(t, id);
    if |u.nodes| == 1 && NodeIps(u.nodes, u.nodes[0].nodeId) == [] {
      OtherSitesMembers(u.sites, u.nodes[0].nodeId, id);
      SingleDropped(u.nodes);
      var v := Apply(u, DeleteNode(u.nodes[0].nodeId));
      assert v.nodes == [] && !HasSite(v.sites, id) && WithoutLast(u) == v;
    }
  }

  lemma CleanStepIsThorough(s: NetState, id: NodeId, ip: Ip)
    requires Consistent(s)
    ensures NothingIdle(CleanStep(s, id, ip), id)
  {
    var t := Apply(s, ReleaseIp(id, ip));
    if Emptied(t, id) {
      DropIsThorough(t, id);
    } else if !HasSite(t.sites, id) {
      DropIpConsistent(s, id, ip);
      NoPool(t, id);
    }
  }

  lemma CleanedFromItself(init: NetState, id: NodeId)
    requires Consistent(init) && init.reserved == []
    ensures CleanedFrom(init, init, id, {})
  {
    assert forall x :: PoolFrom(init, init, id, {}, x) && LeftEmpty(init, init, id, {}, x);
  }

  lemma FreedStep(machines: seq<Workload>, m: Workload, name: string)
    requires m.data.MachineData?
    ensures FreedOn(machines + [m], name)
            == FreedOn(machines, name) + if m.data.network == name then {m.data.ip} else {}
  {
  }

  // ----- The algorithm

  function WithoutName(ws: seq<Workload>, name: string): (r: seq<Workload>)
    ensures forall w :: w in r <==> w in ws && w.name != name
  {
    if ws == [] then []
    else
      assert ws == Front(ws) + [Last(ws)];
      WithoutName(Front(ws), name) + if Last(ws).name != name then [Last(ws)] else []
  }

  /** A planned operation is a delete, or an update that no longer carries the network's workload. */
  predicate FreesNetwork(op: TwinView) {
    || op.operation == Delete
    || (op.operation == Update && op.network.Some? &&
        forall w :: w in op.deployment.workloads ==> w.name != op.network.value)
  }

  predicate UsedBy(machines: seq<Workload>, name: string) {
    exists m :: m in machines && m.data.MachineData? && m.data.network == name
  }

  lemma UsedStep(machines: seq<Workload>, m: Workload, name: string)
    requires m.data.MachineData?
    ensures UsedBy(machines + [m], name) <==> UsedBy(machines, name) || m.data.network == name
  {
    assert m in machines + [m];
    if x :| x in machines && x.data.MachineData? && x.data.network == name {
      assert x in machines + [m];
    }
  }

  ghost predicate CleanedAt(stored: map<string, StoredNetwork>, states: map<string, NetState>, nodeId: NodeId,
                            machines: seq<Workload>, name: string)
    requires name in states
  {
    CleanedFrom(StateOf(stored, name), states[name], nodeId, FreedOn(machines, name))
    && NothingIdle(states[name], nodeId)
  }

  ghost predicate AllCleaned(stored: map<string, StoredNetwork>, states: map<string, NetState>, nodeId: NodeId,
                             machines: seq<Workload>) {
    && (forall name :: name in states <==> UsedBy(machines, name))
    && forall name :: name in states ==> CleanedAt(stored, states, nodeId, machines, name)
  }

  lemma CleanedSoFar(stored: map<string, StoredNetwork>, states: map<string, NetState>, nodeId: NodeId,
                     machines: seq<Workload>, name: string)
    requires AllCleaned(stored, states, nodeId, machines)
    requires Consistent(StateOf(stored, name)) && StateOf(stored, name).reserved == []
    ensures CleanedFrom(StateOf(stored, name), CurrentState(stored, states, name), nodeId, FreedOn(machines, name))
  {
    if name in states {
      assert CleanedAt(stored, states, nodeId, machines, name);
    } else {
      CleanedFromItself(StateOf(stored, name), nodeId);
      assert FreedOn(machines, name) == {};
    }
  }

  lemma UsedAfter(states: map<string, NetState>, machines: seq<Workload>, m: Workload, s: NetState)
    requires m.data.MachineData? && forall name :: name in states <==> UsedBy(machines, name)
    ensures forall name :: name in states[m.data.network := s] <==> UsedBy(machines + [m], name)
  {
    forall name ensures name in states[m.data.network := s] <==> UsedBy(machines + [m], name) {
      UsedStep(machines, m, name);
    }
  }

  lemma OtherStaysCleaned(stored: map<string, StoredNetwork>, states: map<string, NetState>, nodeId: NodeId,
                          machines: seq<Workload>, m: Workload, s: NetState, name: string)
    requires m.data.MachineData? && name in states && name != m.data.network
    requires CleanedAt(stored, states, nodeId, machines, name)
    ensures CleanedAt(stored, states[m.data.network := s], nodeId, machines + [m], name)
  {
    FreedStep(machines, m, name);
    assert FreedOn(machines + [m], name) == FreedOn(machines, name);
  }

  lemma TurnCleans(stored: map<string, StoredNetwork>, states: map<string, NetState>, nodeId: NodeId,
                   machines: seq<Workload>, m: Workload)
    requires AllCleaned(stored, states, nodeId, machines) && m.data.MachineData?
    requires Consistent(StateOf(stored, m.data.network)) && StateOf(stored, m.data.network).reserved == []
    ensures var name := m.data.network;
            var s := CurrentState(stored, states, name);
            CleanedAt(stored, states[name := CleanStep(s, nodeId, m.data.ip)], nodeId, machines + [m], name)
  {
    var name := m.data.network;
    var s := CurrentState(stored, states, name);
    CleanedSoFar(stored, states, nodeId, machines, name);
    CleanStepKeeps(StateOf(stored, name), s, nodeId, FreedOn(machines, name), m.data.ip);
    CleanStepIsThorough(s, nodeId, m.data.ip);
    FreedStep(machines, m, name);
  }

  lemma AllCleanedStep(stored: map<string, StoredNetwork>, states: map<string, NetState>, nodeId: NodeId,
                       machines: seq<Workload>, m: Workload)
    requires AllCleaned(stored, states, nodeId, machines) && m.data.MachineData?
    requires Consistent(StateOf(stored, m.data.network)) && StateOf(stored, m.data.network).reserved == []
    ensures var s := CurrentState(stored, states, m.data.network);
            AllCleaned(stored, states[m.data.network := CleanStep(s, nodeId, m.data.ip)], nodeId, machines + [m])
  {
    var s := CleanStep(CurrentState(stored, states, m.data.network), nodeId, m.data.ip);
    TurnCleans(stored, states, nodeId, machines, m);
    UsedAfter(states, machines, m, s);
    forall name | name in states && name != m.data.network
      ensures CleanedAt(stored, states[m.data.network := s], nodeId, machines + [m], name)
    {
      OtherStaysCleaned(stored, states, nodeId, machines, m, s, name);
    }
  }

  // ----- What is planned

  /** For the deployment that carried a dropped member's network workload: a delete if it carried nothing else. */
  function DropOps(deployments: seq<DeploymentView>, contractId: nat, name: string): seq<TwinView> {
    if deployments == [] then []
    else
      var d := Last(deployments);
      DropOps(Front(deployments), contractId, name)
      + if d.contractId != contractId then []
        else if |d.workloads| == 1 then [TwinView(d, Operation.Delete, 0, 0, Some(name))]
        else [TwinView(d.(workloads := WithoutName(d.workloads, name)), Operation.Update, 0, 0, Some(name))]
  }

  lemma {:induction false} DropOpsFree(deployments: seq<DeploymentView>, contractId: nat, name: string)
    ensures forall op :: op in DropOps(deployments, contractId, name) ==>
              FreesNetwork(op) && op.network == Some(name) && op.deployment.contractId == contractId
    ensures (exists d :: d in deployments && d.contractId == contractId) <==>
            DropOps(deployments, contractId, name) != []
  {
    if deployments != [] {
      DropOpsFree(Front(deployments), contractId, name);
      assert deployments == Front(deployments) + [Last(deployments)];
    }
  }

  /** The contract of the machine's node, if the node is let go. */
  function DroppedContract(s: NetState, id: NodeId, ip: Ip): Option<nat> {
    var t := Apply(s, ReleaseIp(id, ip));
    if Emptied(t, id) then Some(ContractOf(t.nodes, id)) else None
  }

  /** The contract of a last member that is let go as well. */
  function LastContract(s: NetState): Option<nat> {
    if |s.nodes| == 1 && NodeIps(s.nodes, s.nodes[0].nodeId) == []
    then Some(ContractOf(s.nodes, s.nodes[0].nodeId))
    else None
  }

  function AlsoDropped(s: NetState, id: NodeId, ip: Ip): Option<nat> {
    var t := Apply(s, ReleaseIp(id, ip));
    if Emptied(t, id) then LastContract(Apply(t, DeleteNode(id))) else None
  }

  function DeploymentsOf(stored: map<string, StoredNetwork>, name: string): seq<DeploymentView> {
    if name in stored then stored[name].deployments else []
  }

  /** What is planned, what stays of the deployment, and which nodes and addresses went. */
  datatype Outcome = Outcome(ops: seq<TwinView>, remaining: seq<Workload>, deletedNodes: seq<NodeId>,
                             deletedIps: seq<Ip>)

  lemma StaysEmpty(init: NetState, s: NetState, id: NodeId, freed: set<Ip>)
    requires CleanedFrom(init, s, id, freed) && init.sites == []
    ensures s.sites == [] && s.nodes == []
  {
    if s.sites != [] {
      assert s.sites[0] in s.sites && PoolFrom(init, s, id, freed, s.sites[0].nodeId);
      assert HasSite(s.sites, s.sites[0].nodeId);
    }
  }

  /** The state a machine's network is in when its turn comes. */
  function CurrentState(stored: map<string, StoredNetwork>, states: map<string, NetState>, name: string): NetState {
    if name in states then states[name] else StateOf(stored, name)
  }

  predicate Cleanable(s: NetState, isStored: bool) {
    s.reserved == [] && Consistent(s) && (isStored || (s.nodes == [] && s.sites == []))
  }

  lemma ReadyToClean(stored: map<string, StoredNetwork>, states: map<string, NetState>, nodeId: NodeId,
                     machines: seq<Workload>, name: string)
    requires AllCleaned(stored, states, nodeId, machines) && Consistent(StateOf(stored, name))
    ensures Cleanable(CurrentState(stored, states, name), name in stored)
  {
    if name in states {
      assert CleanedAt(stored, states, nodeId, machines, name);
      if name !in stored {
        StaysEmpty(StateOf(stored, name), states[name], nodeId, FreedOn(machines, name));
      }
    }
  }

  lemma SetTwice(states: map<string, NetState>, name: string, s: NetState, t: NetState)
    ensures states[name := s][name := t] == states[name := t]
  {
  }

  function WithOps(done: Outcome, ops: seq<TwinView>): Outcome {
    done.(ops := done.ops + ops)
  }

  /** What the node's leaving means for the machine's own deployment, or for the one that carried the network. */
  function AfterDrop(done: Outcome, deployment: DeploymentView, name: string, ip: Ip, nodeId: NodeId,
                     deployments: seq<DeploymentView>, contractId: nat): Outcome {
    if contractId != deployment.contractId then WithOps(done, DropOps(deployments, contractId, name))
    else if |done.remaining| == 1 then
      WithOps(done, [TwinView(deployment, Operation.Delete, 0, 0, Some(name))]).(remaining := [])
    else done.(remaining := WithoutName(done.remaining, name), deletedIps := done.deletedIps + [ip],
               deletedNodes := done.deletedNodes + [nodeId])
  }

  /** One machine's turn: the deployment goes once nothing of it remains, and what left the network is planned for. */
  function PlanStep(done: Outcome, deployment: DeploymentView, name: string, ip: Ip, nodeId: NodeId,
                    deployments: seq<DeploymentView>, dropped: Option<nat>, lastDropped: Option<nat>): Outcome {
    var first := if done.remaining == []
                 then WithOps(done, [TwinView(deployment, Operation.Delete, 0, 0, Some(name))])
                 else done;
    if dropped.None? then first.(deletedIps := first.deletedIps + [ip])
    else
      var next := AfterDrop(first, deployment, name, ip, nodeId, deployments, dropped.value);
      if lastDropped.None? then next else WithOps(next, DropOps(deployments, lastDropped.value, name))
  }

  // ----- All machines

  predicate OnNetworks(machines: seq<Workload>) {
    forall m :: m in machines ==> m.data.MachineData?
  }

  /** The networks of the machines are loaded with their lists in step. */
  ghost predicate InStep(stored: map<string, StoredNetwork>, machines: seq<Workload>) {
    forall m :: m in machines && m.data.MachineData? ==> Consistent(StateOf(stored, m.data.network))
  }

  /** The states the networks are left in, each loaded when first met. */
  function CleanAll(stored: map<string, StoredNetwork>, machines: seq<Workload>, nodeId: NodeId): map<string, NetState>
    requires OnNetworks(machines)
  {
    if machines == [] then map[]
    else
      assert machines == Front(machines) + [Last(machines)];
      var before, m := CleanAll(stored, Front(machines), nodeId), Last(machines).data;
      before[m.network := CleanStep(CurrentState(stored, before, m.network), nodeId, m.ip)]
  }

  function OutcomeAll(stored: map<string, StoredNetwork>, deployment: DeploymentView, kept: seq<Workload>,
                      machines: seq<Workload>, nodeId: NodeId): Outcome
    requires OnNetworks(machines)
  {
    if machines == [] then Outcome([], kept, [], [])
    else
      assert machines == Front(machines) + [Last(machines)];
      var m := Last(machines).data;
      var s := CurrentState(stored, CleanAll(stored, Front(machines), nodeId), m.network);
      PlanStep(OutcomeAll(stored, deployment, kept, Front(machines), nodeId), deployment, m.network, m.ip, nodeId,
               DeploymentsOf(stored, m.network), DroppedContract(s, nodeId, m.ip), AlsoDropped(s, nodeId, m.ip))
  }

  /** Whatever machines go, every network met ends up cleaned of all of them. */
  lemma {:induction false} AllAreCleaned(stored: map<string, StoredNetwork>, machines: seq<Workload>, nodeId: NodeId)
    requires OnNetworks(machines) && InStep(stored, machines)
    ensures AllCleaned(stored, CleanAll(stored, machines, nodeId), nodeId, machines)
  {
    if machines != [] {
      var f, m := Front(machines), Last(machines);
      assert machines == f + [m];
      AllAreCleaned(stored, f, nodeId);
      AllCleanedStep(stored, CleanAll(stored, f, nodeId), nodeId, f, m);
    }
  }

  lemma DroppedIsGone(s: NetState, id: NodeId, ip: Ip)
    requires DroppedContract(s, id, ip).Some?
    ensures !HasSite(CleanStep(s, id, ip).sites, id)
  {
    var t := Apply(s, ReleaseIp(id, ip));
    var u := Apply(t, DeleteNode(id));
    NodeDropped(t, id);
    if |u.nodes| == 1 {
      OtherSitesMembers(u.sites, u.nodes[0].nodeId, id);
    }
  }

  lemma GoneStaysGone(s: NetState, id: NodeId, ip: Ip, x: NodeId)
    requires !HasSite(s.sites, x)
    ensures !HasSite(CleanStep(s, id, ip).sites, x)
  {
    var t := Apply(s, ReleaseIp(id, ip));
    var u := Apply(t, DeleteNode(id));
    OtherSitesMembers(t.sites, id, x);
    if |u.nodes| == 1 {
      OtherSitesMembers(u.sites, u.nodes[0].nodeId, x);
    }
  }

  /** The node is no member any more of the network of that name. */
  ghost predicate Left(states: map<string, NetState>, nodeId: NodeId, name: string) {
    name in states && !HasSite(states[name].sites, nodeId)
  }

  /** Wherever the node was gone it still is. */
  ghost predicate NoneBack(before: map<string, NetState>, after: map<string, NetState>, nodeId: NodeId) {
    forall name :: Left(before, nodeId, name) ==> Left(after, nodeId, name)
  }

  /** Operations free networks; of the deployment's own workloads, only those go whose network the node left, unless
      all of it goes. */
  ghost predicate Carries(done: Outcome, kept: seq<Workload>, states: map<string, NetState>, nodeId: NodeId) {
    && (forall op :: op in done.ops ==> FreesNetwork(op))
    && (forall w :: w in done.remaining ==> w in kept)
    && (forall w :: w in kept && w !in done.remaining ==> done.remaining == [] || Left(states, nodeId, w.name))
  }

  lemma PlanStepCarries(done: Outcome, kept: seq<Workload>, before: map<string, NetState>, after: map<string, NetState>,
                        deployment: DeploymentView, name: string, ip: Ip, nodeId: NodeId,
                        deployments: seq<DeploymentView>, dropped: Option<nat>, lastDropped: Option<nat>)
    requires Carries(done, kept, before, nodeId)
    requires NoneBack(before, after, nodeId)
    requires dropped.Some? ==> Left(after, nodeId, name)
    ensures Carries(PlanStep(done, deployment, name, ip, nodeId, deployments, dropped, lastDropped), kept, after,
                    nodeId)
  {
    if dropped.Some? {
      DropOpsFree(deployments, dropped.value, name);
    }
    if lastDropped.Some? {
      DropOpsFree(deployments, lastDropped.value, name);
    }
  }

  /** A machine's turn brings no node back, and the node it drops is gone. */
  lemma LeftStays(stored: map<string, StoredNetwork>, before: map<string, NetState>, nodeId: NodeId, name: string,
                  ip: Ip)
    ensures var s := CurrentState(stored, before, name);
            var after := before[name := CleanStep(s, nodeId, ip)];
            && NoneBack(before, after, nodeId)
            && (DroppedContract(s, nodeId, ip).Some? ==> Left(after, nodeId, name))
  {
    var s := CurrentState(stored, before, name);
    if !HasSite(s.sites, nodeId) {
      GoneStaysGone(s, nodeId, ip, nodeId);
    }
    if DroppedContract(s, nodeId, ip).Some? {
      DroppedIsGone(s, nodeId, ip);
    }
  }

  lemma TurnCarries(stored: map<string, StoredNetwork>, deployment: DeploymentView, done: Outcome, kept: seq<Workload>,
                    before: map<string, NetState>, nodeId: NodeId, name: string, ip: Ip)
    requires Carries(done, kept, before, nodeId)
    ensures var s := CurrentState(stored, before, name);
            Carries(PlanStep(done, deployment, name, ip, nodeId, DeploymentsOf(stored, name),
                             DroppedContract(s, nodeId, ip), AlsoDropped(s, nodeId, ip)),
                    kept, before[name := CleanStep(s, nodeId, ip)], nodeId)
  {
    var s := CurrentState(stored, before, name);
    LeftStays(stored, before, nodeId, name, ip);
    PlanStepCarries(done, kept, before, before[name := CleanStep(s, nodeId, ip)], deployment, name, ip, nodeId,
                    DeploymentsOf(stored, name), DroppedContract(s, nodeId, ip), AlsoDropped(s, nodeId, ip));
  }

  lemma {:induction false} OutcomeCarries(stored: map<string, StoredNetwork>, deployment: DeploymentView,
                                          kept: seq<Workload>, machines: seq<Workload>, nodeId: NodeId)
    requires OnNetworks(machines)
    ensures Carries(OutcomeAll(stored, deployment, kept, machines, nodeId), kept, CleanAll(stored, machines, nodeId),
                    nodeId)
  {
    if machines == [] {
      NothingCarried(kept, nodeId);
      assert OutcomeAll(stored, deployment, kept, machines, nodeId) == Outcome([], kept, [], []);
      assert CleanAll(stored, machines, nodeId) == map[];
    } else {
      var f, m := Front(machines), Last(machines).data;
      assert machines == f + [Last(machines)] && OnNetworks(f) && m.MachineData?;
      OutcomeCarries(stored, deployment, kept, f, nodeId);
      var before, done := CleanAll(stored, f, nodeId), OutcomeAll(stored, deployment, kept, f, nodeId);
      TurnCarries(stored, deployment, done, kept, before, nodeId, m.network, m.ip);
      OneMore(stored, deployment, kept, machines, nodeId);
    }
  }

  lemma NothingCarried(kept: seq<Workload>, nodeId: NodeId)
    ensures Carries(Outcome([], kept, [], []), kept, map[], nodeId)
  {
  }

  lemma OneMore(stored: map<string, StoredNetwork>, deployment: DeploymentView, kept: seq<Workload>,
                machines: seq<Workload>, nodeId: NodeId)
    requires OnNetworks(machines) && machines != [] && OnNetworks(Front(machines)) && Last(machines).data.MachineData?
    ensures var m, before := Last(machines).data, CleanAll(stored, Front(machines), nodeId);
            var s := CurrentState(stored, before, m.network);
            && CleanAll(stored, machines, nodeId) == before[m.network := CleanStep(s, nodeId, m.ip)]
            && OutcomeAll(stored, deployment, kept, machines, nodeId)
               == PlanStep(OutcomeAll(stored, deployment, kept, Front(machines), nodeId), deployment, m.network, m.ip,
                           nodeId, DeploymentsOf(stored, m.network), DroppedContract(s, nodeId, m.ip),
                           AlsoDropped(s, nodeId, m.ip))
  {
  }
}
