/** What the clean-up after deleted machines plans, read off the networks as the machines' turns find them. */
module CleanupPlan {
  import opened Lists
  import opened Overlay
  import opened Allocation
  import opened Workloads
  import opened Networks
  import opened Cleaning

  /** What is to be deleted: `machines` of a deployment on node `nodeId`, of which `kept` is to stay. */
  datatype Job = Job(
    stored: map<string, StoredNetwork>, deployment: DeploymentView, kept: seq<Workload>, machines: seq<Workload>,
    nodeId: NodeId)

  /** One machine's turn: its network as the turn finds it, and the address given back there. */
  datatype Turn = Turn(found: NetState, network: string, ip: Ip)

  ghost predicate TurnsFrom(j: Job, t: Turn, m: Workload, before: map<string, NetState>, after: map<string, NetState>) {
    && m.data.MachineData? && t.network == m.data.network && t.ip == m.data.ip
    && t.found == CurrentState(j.stored, before, t.network)
    && after == before[t.network := CleanStep(t.found, j.nodeId, t.ip)]
  }

  /** The turns of all machines, in order, and the networks met before each of them and at the end. */
  ghost predicate AreTurns(j: Job, turns: seq<Turn>, states: seq<map<string, NetState>>) {
    && |turns| == |j.machines| && |states| == |turns| + 1 && states[0] == map[]
    && forall i {:trigger turns[i]} :: 0 <= i < |turns| ==>
         TurnsFrom(j, turns[i], j.machines[i], states[i], states[i + 1])
  }

  // ----- Who goes

  /** No address but this one is out on the node, and if it hosts access it is the only one left. */
  predicate LetsGo(s: NetState, id: NodeId, ip: Ip) {
    (forall x :: x in NodeIps(s.nodes, id) ==> x == ip) && (HostsAccess(s, id) ==> |s.nodes| == 1)
  }

  /** Besides `id` there is one member left, under that contract and without an address out. */
  predicate LastGoes(s: NetState, id: NodeId, contractId: nat) {
    |OtherNodes(s.nodes, id)| == 1 && OtherNodes(s.nodes, id)[0].reservedIps == []
    && OtherNodes(s.nodes, id)[0].contractId == contractId
  }

  lemma {:induction false} OtherNodesRelease(nodes: seq<NodeView>, id: NodeId, ip: Ip)
    ensures OtherNodes(DropIp(nodes, id, ip), id) == OtherNodes(nodes, id)
    ensures forall x :: ContractOf(DropIp(nodes, id, ip), x) == ContractOf(nodes, x)
  {
    if nodes != [] {
      OtherNodesRelease(Front(nodes), id, ip);
      assert Front(DropIp(nodes, id, ip)) == DropIp(Front(nodes), id, ip);
    }
  }

  /** The machine's node leaves exactly if it may, and under its own contract. */
  lemma DroppedIs(s: NetState, id: NodeId, ip: Ip)
    ensures DroppedContract(s, id, ip) == if LetsGo(s, id, ip) then Some(ContractOf(s.nodes, id)) else None
  {
    var t := Apply(s, ReleaseIp(id, ip));
    DropIpPool(s.nodes, id, ip, id);
    OtherNodesRelease(s.nodes, id, ip);
    var pool := NodeIps(t.nodes, id);
    assert pool == WithoutIp(NodeIps(s.nodes, id), ip);
    assert pool != [] ==> pool[0] in pool;
  }

  lemma AlsoDroppedIs(s: NetState, id: NodeId, ip: Ip, contractId: nat)
    ensures AlsoDropped(s, id, ip) == Some(contractId) <==> LetsGo(s, id, ip) && LastGoes(s, id, contractId)
  {
    DroppedIs(s, id, ip);
    OtherNodesRelease(s.nodes, id, ip);
    var u := Apply(Apply(s, ReleaseIp(id, ip)), DeleteNode(id));
    assert u.nodes == OtherNodes(s.nodes, id);
    if |u.nodes| == 1 {
      assert u.nodes == [u.nodes[0]] && NodeIps(u.nodes, u.nodes[0].nodeId) == u.nodes[0].reservedIps;
    }
  }

  /** The machine's node leaves its network in that turn, and the network's workload is in the machine's own
      deployment. */
  predicate OwnGoes(j: Job, t: Turn) {
    LetsGo(t.found, j.nodeId, t.ip) && ContractOf(t.found.nodes, j.nodeId) == j.deployment.contractId
  }

  // ----- What remains of the deployment

  /** The workloads under other names, in order. */
  function Spared(ws: seq<Workload>, names: set<string>): seq<Workload> {
    if ws == [] then [] else Spared(Front(ws), names) + if Last(ws).name in names then [] else [Last(ws)]
  }

  lemma {:induction false} InSpared(ws: seq<Workload>, names: set<string>, w: Workload)
    ensures w in Spared(ws, names) <==> w in ws && w.name !in names
  {
    if ws != [] {
      InSpared(Front(ws), names, w);
      assert ws == Front(ws) + [Last(ws)];
    }
  }

  lemma SparedAppended(ws: seq<Workload>, w: Workload, names: set<string>)
    ensures Spared(ws + [w], names) == Spared(ws, names) + if w.name in names then [] else [w]
  {
    assert Front(ws + [w]) == ws;
  }

  lemma WithoutAppended(ws: seq<Workload>, w: Workload, name: string)
    ensures WithoutName(ws + [w], name) == WithoutName(ws, name) + if w.name != name then [w] else []
  {
    assert Front(ws + [w]) == ws;
  }

  lemma {:induction false} SparedOneMore(ws: seq<Workload>, names: set<string>, name: string, more: set<string>)
    requires more == names + {name}
    ensures Spared(ws, more) == WithoutName(Spared(ws, names), name)
  {
    if ws != [] {
      var f, w := Front(ws), Last(ws);
      assert ws == f + [w];
      SparedOneMore(f, names, name, more);
      SparedLast(f, w, names, name, more);
    }
  }

  lemma SparedLast(f: seq<Workload>, w: Workload, names: set<string>, name: string, more: set<string>)
    requires more == names + {name} && Spared(f, more) == WithoutName(Spared(f, names), name)
    ensures Spared(f + [w], more) == WithoutName(Spared(f + [w], names), name)
  {
    SparedAppended(f, w, names);
    SparedAppended(f, w, more);
    var before, fewer := Spared(f, names), Spared(f, more);
    WithoutAppended(before, w, name);
    assert before + [] == before && fewer + [] == fewer;
  }

  lemma {:induction false} SparedAll(ws: seq<Workload>)
    ensures Spared(ws, {}) == ws
  {
    if ws != [] {
      assert ws == Front(ws) + [Last(ws)];
      SparedAll(Front(ws));
      SparedAppended(Front(ws), Last(ws), {});
    }
  }

  /** The networks that went from the deployment in the first `n` turns. */
  ghost function NetworksGone(j: Job, turns: seq<Turn>, n: nat): set<string>
    requires n <= |turns|
  {
    set i | 0 <= i < n && OwnGoes(j, turns[i]) :: turns[i].network
  }

  /** In that turn the deployment is down to one workload when its network goes: then all of it goes. */
  ghost predicate LastOneGoes(j: Job, turns: seq<Turn>, i: nat)
    requires i < |turns|
  {
    OwnGoes(j, turns[i]) && |Spared(j.kept, NetworksGone(j, turns, i))| == 1
  }

  ghost predicate AllGone(j: Job, turns: seq<Turn>, n: nat)
    requires n <= |turns|
  {
    exists i :: 0 <= i < n && LastOneGoes(j, turns, i)
  }

  /** What is left of the deployment after `n` turns: what was to stay without the networks that went, or nothing once
      the last workload went along with its network. */
  ghost function Remains(j: Job, turns: seq<Turn>, n: nat): seq<Workload>
    requires n <= |turns|
  {
    if AllGone(j, turns, n) then [] else Spared(j.kept, NetworksGone(j, turns, n))
  }

  lemma NetworksGoneStep(j: Job, turns: seq<Turn>, i: nat)
    requires i < |turns|
    ensures NetworksGone(j, turns, i + 1)
            == NetworksGone(j, turns, i) + if OwnGoes(j, turns[i]) then {turns[i].network} else {}
  {
  }

  lemma AllGoneStep(j: Job, turns: seq<Turn>, i: nat)
    requires i < |turns|
    ensures AllGone(j, turns, i + 1) <==> AllGone(j, turns, i) || LastOneGoes(j, turns, i)
  {
  }

  /** What a turn leaves of the deployment. */
  function Left(j: Job, remaining: seq<Workload>, t: Turn): seq<Workload> {
    if !OwnGoes(j, t) then remaining
    else if |remaining| == 1 then []
    else WithoutName(remaining, t.network)
  }

  lemma RemainsStep(j: Job, turns: seq<Turn>, i: nat)
    requires i < |turns|
    ensures Remains(j, turns, i + 1) == Left(j, Remains(j, turns, i), turns[i])
  {
    NetworksGoneStep(j, turns, i);
    AllGoneStep(j, turns, i);
    var gone := NetworksGone(j, turns, i);
    if OwnGoes(j, turns[i]) {
      SparedOneMore(j.kept, gone, turns[i].network, NetworksGone(j, turns, i + 1));
    } else {
      assert gone + {} == gone;
    }
  }

  // ----- What one turn adds to the plan

  /** The outcome after a turn. */
  function Stepped(j: Job, done: Outcome, t: Turn): Outcome {
    PlanStep(done, j.deployment, t.network, t.ip, j.nodeId, DeploymentsOf(j.stored, t.network),
             DroppedContract(t.found, j.nodeId, t.ip), AlsoDropped(t.found, j.nodeId, t.ip))
  }

  ghost predicate AreOutcomes(j: Job, turns: seq<Turn>, dones: seq<Outcome>) {
    && |dones| == |turns| + 1 && dones[0] == Outcome([], j.kept, [], [])
    && forall i {:trigger turns[i]} :: 0 <= i < |turns| ==> dones[i + 1] == Stepped(j, dones[i], turns[i])
  }

  function DeleteOwn(j: Job, name: string): TwinView {
    TwinView(j.deployment, Operation.Delete, 0, 0, Some(name))
  }

  /** That turn has the deployment deleted: nothing is left of it, or its last workload goes with the network, or it is
      all that the contract of the one member left has. */
  ghost predicate Deletes(j: Job, remaining: seq<Workload>, t: Turn) {
    || remaining == []
    || (OwnGoes(j, t) && |remaining| == 1)
    || (LetsGo(t.found, j.nodeId, t.ip) && LastGoes(t.found, j.nodeId, j.deployment.contractId)
        && j.deployment in DeploymentsOf(j.stored, t.network) && |j.deployment.workloads| == 1)
  }

  /** The operation takes the network's workload out of `d`, along with `d` if that is all there is to it. */
  predicate Frees(op: TwinView, d: DeploymentView, name: string) {
    && op.network == Some(name)
    && if |d.workloads| == 1 then op.operation == Operation.Delete && op.deployment == d
       else && op.operation == Operation.Update && op.deployment == d.(workloads := op.deployment.workloads)
            && op.deployment.workloads == Spared(d.workloads, {name})
  }

  lemma {:induction false} WithoutIsSpared(ws: seq<Workload>, name: string)
    ensures WithoutName(ws, name) == Spared(ws, {name})
  {
    if ws != [] {
      WithoutIsSpared(Front(ws), name);
    }
  }

  lemma {:induction false} InDropOps(deployments: seq<DeploymentView>, contractId: nat, name: string, op: TwinView)
    ensures op in DropOps(deployments, contractId, name) ==>
              exists d :: d in deployments && d.contractId == contractId && op.deployment.contractId == contractId
                          && Frees(op, d, name)
    ensures forall d :: d in deployments && d.contractId == contractId ==>
              exists o :: o in DropOps(deployments, contractId, name) && Frees(o, d, name)
  {
    if deployments != [] {
      var f, l := Front(deployments), Last(deployments);
      assert deployments == f + [l];
      InDropOps(f, contractId, name, op);
      WithoutIsSpared(l.workloads, name);
      var before, all := DropOps(f, contractId, name), DropOps(deployments, contractId, name);
      assert forall o :: o in before ==> o in all;
      if l.contractId == contractId {
        assert Frees(Last(all), l, name) && Last(all) in all;
      }
    }
  }

  lemma OwnOnly(j: Job, name: string, contractId: nat)
    ensures DeleteOwn(j, name) in DropOps(DeploymentsOf(j.stored, name), contractId, name) <==>
            && contractId == j.deployment.contractId && |j.deployment.workloads| == 1
            && j.deployment in DeploymentsOf(j.stored, name)
    ensures forall other, c :: other != name ==>
              DeleteOwn(j, name) !in DropOps(DeploymentsOf(j.stored, other), c, other)
  {
    var op, ds := DeleteOwn(j, name), DeploymentsOf(j.stored, name);
    InDropOps(ds, contractId, name, op);
    forall other, c | other != name && op in DropOps(DeploymentsOf(j.stored, other), c, other) ensures false {
      InDropOps(DeploymentsOf(j.stored, other), c, other, op);
    }
    if j.deployment in ds && contractId == j.deployment.contractId && |j.deployment.workloads| == 1 {
      DeleteAmongDrops(ds, j.deployment, name);
    }
  }

  lemma {:induction false} DeleteAmongDrops(ds: seq<DeploymentView>, d: DeploymentView, name: string)
    requires d in ds && |d.workloads| == 1
    ensures TwinView(d, Operation.Delete, 0, 0, Some(name)) in DropOps(ds, d.contractId, name)
  {
    if Last(ds) != d {
      assert ds == Front(ds) + [Last(ds)];
      DeleteAmongDrops(Front(ds), d, name);
    }
  }

  lemma SteppedRemaining(j: Job, done: Outcome, t: Turn)
    ensures Stepped(j, done, t).remaining == Left(j, done.remaining, t)
  {
    DroppedIs(t.found, j.nodeId, t.ip);
  }

  lemma SteppedDeletes(j: Job, done: Outcome, t: Turn, name: string)
    ensures DeleteOwn(j, name) in Stepped(j, done, t).ops <==>
            DeleteOwn(j, name) in done.ops || (t.network == name && Deletes(j, done.remaining, t))
  {
    DroppedIs(t.found, j.nodeId, t.ip);
    AlsoDroppedIs(t.found, j.nodeId, t.ip, j.deployment.contractId);
    var dropped, last := DroppedContract(t.found, j.nodeId, t.ip), AlsoDropped(t.found, j.nodeId, t.ip);
    if dropped.Some? {
      OwnOnly(j, name, dropped.value);
    }
    if last.Some? {
      OwnOnly(j, name, last.value);
    }
  }

  /** That turn's node is noted: its network goes from the deployment, which has more to it. */
  ghost predicate NotesNode(j: Job, remaining: seq<Workload>, t: Turn) {
    OwnGoes(j, t) && |remaining| != 1
  }

  /** That turn's address is noted: the node stays, or is noted too. */
  ghost predicate NotesIp(j: Job, remaining: seq<Workload>, t: Turn) {
    !LetsGo(t.found, j.nodeId, t.ip) || NotesNode(j, remaining, t)
  }

  lemma SteppedNotes(j: Job, done: Outcome, t: Turn)
    ensures Stepped(j, done, t).deletedIps == done.deletedIps + if NotesIp(j, done.remaining, t) then [t.ip] else []
    ensures Stepped(j, done, t).deletedNodes
            == done.deletedNodes + if NotesNode(j, done.remaining, t) then [j.nodeId] else []
  {
    DroppedIs(t.found, j.nodeId, t.ip);
  }

  /** Nothing planned before is taken back, nothing gone comes back. */
  lemma SteppedGrows(j: Job, done: Outcome, t: Turn)
    ensures forall op :: op in done.ops ==> op in Stepped(j, done, t).ops
    ensures forall id :: id in done.deletedNodes ==> id in Stepped(j, done, t).deletedNodes
    ensures forall w :: w in Stepped(j, done, t).remaining ==> w in done.remaining
  {
    SteppedRemaining(j, done, t);
    SteppedNotes(j, done, t);
  }

  /** The member's table is taken out of its deployment: of the machine's own one by leaving it out of what remains
      or with all of it, of any other by an operation. */
  ghost predicate TakenOut(j: Job, done: Outcome, name: string, node: NodeView) {
    if node.nodeId == j.nodeId && node.contractId == j.deployment.contractId
    then DeleteOwn(j, name) in done.ops
         || (j.nodeId in done.deletedNodes && forall w :: w in done.remaining ==> w.name != name)
    else forall d :: d in DeploymentsOf(j.stored, name) && d.contractId == node.contractId ==>
           exists op :: op in done.ops && Frees(op, d, name)
  }

  lemma StaysTakenOut(j: Job, done: Outcome, t: Turn, name: string, node: NodeView)
    requires TakenOut(j, done, name, node)
    ensures TakenOut(j, Stepped(j, done, t), name, node)
  {
    SteppedGrows(j, done, t);
  }

  // ----- What becomes of those who left

  lemma {:induction false} InOtherNodes(nodes: seq<NodeView>, id: NodeId, node: NodeView)
    ensures node in OtherNodes(nodes, id) <==> node in nodes && node.nodeId != id
  {
    if nodes != [] {
      InOtherNodes(Front(nodes), id, node);
      assert nodes == Front(nodes) + [Last(nodes)];
    }
  }

  /** The records are those there were, under the same contracts. */
  ghost predicate SameContracts(init: seq<NodeView>, nodes: seq<NodeView>) {
    forall r :: r in nodes ==> exists o :: o in init && o.nodeId == r.nodeId && o.contractId == r.contractId
  }

  lemma ReleaseSameContracts(init: seq<NodeView>, nodes: seq<NodeView>, id: NodeId, ip: Ip)
    requires SameContracts(init, nodes)
    ensures SameContracts(init, DropIp(nodes, id, ip))
  {
    var dropped := DropIp(nodes, id, ip);
    forall r | r in dropped ensures exists o :: o in init && o.nodeId == r.nodeId && o.contractId == r.contractId {
      var k :| 0 <= k < |dropped| && dropped[k] == r;
      assert nodes[k] in nodes;
    }
  }

  lemma OthersSameContracts(init: seq<NodeView>, nodes: seq<NodeView>, id: NodeId)
    requires SameContracts(init, nodes)
    ensures SameContracts(init, OtherNodes(nodes, id))
  {
    forall r | r in OtherNodes(nodes, id) ensures r in nodes {
      InOtherNodes(nodes, id, r);
    }
  }

  lemma CleanSameContracts(init: seq<NodeView>, s: NetState, id: NodeId, ip: Ip)
    requires SameContracts(init, s.nodes)
    ensures SameContracts(init, CleanStep(s, id, ip).nodes)
  {
    var t := Apply(s, ReleaseIp(id, ip));
    ReleaseSameContracts(init, s.nodes, id, ip);
    OthersSameContracts(init, t.nodes, id);
    var u := Apply(t, DeleteNode(id));
    if |u.nodes| == 1 {
      OthersSameContracts(init, u.nodes, u.nodes[0].nodeId);
    }
  }

  /** In a network in order a member's contract is its record's. */
  lemma {:induction false} ContractOfRecord(nodes: seq<NodeView>, node: NodeView)
    requires node in nodes && forall i, k :: 0 <= i < k < |nodes| ==> nodes[i].nodeId != nodes[k].nodeId
    ensures ContractOf(nodes, node.nodeId) == node.contractId
  {
    var k :| 0 <= k < |nodes| && nodes[k] == node;
    if Last(nodes).nodeId != node.nodeId {
      assert Front(nodes)[k] == node;
      ContractOfRecord(Front(nodes), node);
    }
  }

  lemma LastIs(s: NetState, x: NodeId)
    requires HasSite(s.sites, x) && !HasSite(WithoutLast(s).sites, x)
    ensures |s.nodes| == 1 && s.nodes[0].nodeId == x && s.nodes[0].reservedIps == []
  {
    var only := s.nodes[0];
    OtherSitesMembers(s.sites, only.nodeId, x);
    assert s.nodes == [only] && Last(s.nodes) == only;
  }

  /** Who leaves in a machine's turn is its node, which is let go, or the one other member left. */
  lemma LeaverIs(s: NetState, id: NodeId, ip: Ip, x: NodeId)
    requires HasSite(s.sites, x) && !HasSite(CleanStep(s, id, ip).sites, x)
    ensures LetsGo(s, id, ip)
    ensures x != id ==> |OtherNodes(s.nodes, id)| == 1 && OtherNodes(s.nodes, id)[0].nodeId == x
                        && OtherNodes(s.nodes, id)[0].reservedIps == []
  {
    var t := Apply(s, ReleaseIp(id, ip));
    DroppedIs(s, id, ip);
    if x != id {
      var u := Apply(t, DeleteNode(id));
      OtherNodesRelease(s.nodes, id, ip);
      OtherSitesMembers(t.sites, id, x);
      LastIs(u, x);
    }
  }

  lemma RecordIsMember(s: NetState, node: NodeView)
    requires Consistent(s) && node in s.nodes
    ensures HasSite(s.sites, node.nodeId)
  {
    var k :| 0 <= k < |s.nodes| && s.nodes[k] == node;
    assert s.sites[k] in s.sites;
  }

  /** A member still there has the contract it had. */
  lemma SameContract(init: NetState, s: NetState, node: NodeView) returns (now: NodeView)
    requires Consistent(init) && Consistent(s) && SameContracts(init.nodes, s.nodes)
    requires node in init.nodes && HasSite(s.sites, node.nodeId)
    ensures now in s.nodes && now.nodeId == node.nodeId && now.contractId == node.contractId
  {
    var k :| 0 <= k < |s.sites| && s.sites[k].nodeId == node.nodeId;
    now := s.nodes[k];
    var o :| o in init.nodes && o.nodeId == now.nodeId && o.contractId == now.contractId;
    var a :| 0 <= a < |init.nodes| && init.nodes[a] == o;
    var b :| 0 <= b < |init.nodes| && init.nodes[b] == node;
    assert init.sites[a].nodeId == init.sites[b].nodeId;
  }

  lemma UniqueRecords(s: NetState)
    requires Consistent(s)
    ensures forall i, k :: 0 <= i < k < |s.nodes| ==> s.nodes[i].nodeId != s.nodes[k].nodeId
  {
    forall i, k | 0 <= i < k < |s.nodes| ensures s.nodes[i].nodeId != s.nodes[k].nodeId {
      assert s.sites[i].nodeId != s.sites[k].nodeId;
    }
  }

  /** The contracts the clean-up of a turn comes up with are the leaver's own. */
  lemma LeaverContract(s: NetState, id: NodeId, ip: Ip, node: NodeView)
    requires Consistent(s) && node in s.nodes && !HasSite(CleanStep(s, id, ip).sites, node.nodeId)
    ensures if node.nodeId == id then DroppedContract(s, id, ip) == Some(node.contractId)
            else DroppedContract(s, id, ip).Some? && AlsoDropped(s, id, ip) == Some(node.contractId)
  {
    RecordIsMember(s, node);
    LeaverIs(s, id, ip, node.nodeId);
    DroppedIs(s, id, ip);
    UniqueRecords(s);
    ContractOfRecord(s.nodes, node);
    if node.nodeId != id {
      InOtherNodes(s.nodes, id, node);
      var others := OtherNodes(s.nodes, id);
      assert others == [others[0]] && node == others[0];
      AlsoDroppedIs(s, id, ip, node.contractId);
    }
  }

  lemma OwnLeaves(done: Outcome, deployment: DeploymentView, name: string, ip: Ip, id: NodeId,
                  deployments: seq<DeploymentView>, last: Option<nat>)
    ensures var next := PlanStep(done, deployment, name, ip, id, deployments, Some(deployment.contractId), last);
            TwinView(deployment, Operation.Delete, 0, 0, Some(name)) in next.ops
            || (id in next.deletedNodes && forall w :: w in next.remaining ==> w.name != name)
  {
  }

  /** The turn in which a member leaves plans for it. */
  lemma LeavesInTurn(j: Job, done: Outcome, t: Turn, node: NodeView)
    requires Consistent(t.found) && node in t.found.nodes
    requires !HasSite(CleanStep(t.found, j.nodeId, t.ip).sites, node.nodeId)
    ensures TakenOut(j, Stepped(j, done, t), t.network, node)
  {
    var name := t.network;
    LeaverContract(t.found, j.nodeId, t.ip, node);
    var next, drops := Stepped(j, done, t), DropOps(DeploymentsOf(j.stored, name), node.contractId, name);
    if node.nodeId == j.nodeId && node.contractId == j.deployment.contractId {
      OwnLeaves(done, j.deployment, name, t.ip, j.nodeId, DeploymentsOf(j.stored, name),
                AlsoDropped(t.found, j.nodeId, t.ip));
    } else {
      InDropOps(DeploymentsOf(j.stored, name), node.contractId, name, DeleteOwn(j, name));
      assert forall op :: op in drops ==> op in next.ops;
    }
  }

  // ----- All turns

  lemma {:induction false} RemainingIs(j: Job, turns: seq<Turn>, dones: seq<Outcome>, n: nat)
    requires AreOutcomes(j, turns, dones) && n <= |turns|
    ensures dones[n].remaining == Remains(j, turns, n)
  {
    if n == 0 {
      NothingGone(j, turns);
    } else {
      RemainingIs(j, turns, dones, n - 1);
      RemainingNext(j, turns, dones, n - 1);
    }
  }

  lemma NothingGone(j: Job, turns: seq<Turn>)
    ensures Remains(j, turns, 0) == j.kept
  {
    assert NetworksGone(j, turns, 0) == {};
    SparedAll(j.kept);
  }

  lemma RemainingNext(j: Job, turns: seq<Turn>, dones: seq<Outcome>, i: nat)
    requires AreOutcomes(j, turns, dones) && i < |turns| && dones[i].remaining == Remains(j, turns, i)
    ensures dones[i + 1].remaining == Remains(j, turns, i + 1)
  {
    var t := turns[i];
    assert dones[i + 1] == Stepped(j, dones[i], t);
    SteppedRemaining(j, dones[i], t);
    RemainsStep(j, turns, i);
  }

  /** In the first `n` turns one on that network had the deployment deleted. */
  ghost predicate DeletedBy(j: Job, turns: seq<Turn>, n: nat, name: string)
    requires n <= |turns|
  {
    exists i :: 0 <= i < n && turns[i].network == name && Deletes(j, Remains(j, turns, i), turns[i])
  }

  ghost predicate IpNotedBy(j: Job, turns: seq<Turn>, n: nat, ip: Ip)
    requires n <= |turns|
  {
    exists i :: 0 <= i < n && turns[i].ip == ip && NotesIp(j, Remains(j, turns, i), turns[i])
  }

  ghost predicate NodeNotedBy(j: Job, turns: seq<Turn>, n: nat)
    requires n <= |turns|
  {
    exists i :: 0 <= i < n && NotesNode(j, Remains(j, turns, i), turns[i])
  }

  lemma DeletedStep(j: Job, turns: seq<Turn>, i: nat, name: string)
    requires i < |turns|
    ensures DeletedBy(j, turns, i + 1, name) <==>
            DeletedBy(j, turns, i, name)
            || (turns[i].network == name && Deletes(j, Remains(j, turns, i), turns[i]))
  {
  }

  lemma IpNotedStep(j: Job, turns: seq<Turn>, i: nat, ip: Ip)
    requires i < |turns|
    ensures IpNotedBy(j, turns, i + 1, ip) <==>
            IpNotedBy(j, turns, i, ip) || (turns[i].ip == ip && NotesIp(j, Remains(j, turns, i), turns[i]))
  {
  }

  lemma NodeNotedStep(j: Job, turns: seq<Turn>, i: nat)
    requires i < |turns|
    ensures NodeNotedBy(j, turns, i + 1) <==>
            NodeNotedBy(j, turns, i) || NotesNode(j, Remains(j, turns, i), turns[i])
  {
  }

  /** The deployment is deleted along with a network exactly if some turn on that network has it deleted. */
  lemma {:induction false} OwnDeletedIff(j: Job, turns: seq<Turn>, dones: seq<Outcome>, n: nat, name: string)
    requires AreOutcomes(j, turns, dones) && n <= |turns|
    ensures DeleteOwn(j, name) in dones[n].ops <==> DeletedBy(j, turns, n, name)
  {
    if n == 0 {
      assert DeleteOwn(j, name) !in dones[0].ops;
    } else {
      var i := n - 1;
      OwnDeletedIff(j, turns, dones, i, name);
      OwnDeletedNext(j, turns, dones, i, name);
      assert dones[i + 1] == dones[n];
    }
  }

  lemma OwnDeletedNext(j: Job, turns: seq<Turn>, dones: seq<Outcome>, i: nat, name: string)
    requires AreOutcomes(j, turns, dones) && i < |turns|
    requires DeleteOwn(j, name) in dones[i].ops <==> DeletedBy(j, turns, i, name)
    ensures DeleteOwn(j, name) in dones[i + 1].ops <==> DeletedBy(j, turns, i + 1, name)
  {
    RemainingIs(j, turns, dones, i);
    SteppedDeletes(j, dones[i], turns[i], name);
    DeletedStep(j, turns, i, name);
  }

  /** Exactly these addresses are noted, and no node but the machines' own. */
  lemma {:induction false} NotedIff(j: Job, turns: seq<Turn>, dones: seq<Outcome>, n: nat, ip: Ip, id: NodeId)
    requires AreOutcomes(j, turns, dones) && n <= |turns|
    ensures ip in dones[n].deletedIps <==> IpNotedBy(j, turns, n, ip)
    ensures id in dones[n].deletedNodes <==> id == j.nodeId && NodeNotedBy(j, turns, n)
  {
    if n > 0 {
      NotedIff(j, turns, dones, n - 1, ip, id);
      NotedNext(j, turns, dones, n - 1, ip, id);
    }
  }

  lemma NotedNext(j: Job, turns: seq<Turn>, dones: seq<Outcome>, i: nat, ip: Ip, id: NodeId)
    requires AreOutcomes(j, turns, dones) && i < |turns|
    requires ip in dones[i].deletedIps <==> IpNotedBy(j, turns, i, ip)
    requires id in dones[i].deletedNodes <==> id == j.nodeId && NodeNotedBy(j, turns, i)
    ensures ip in dones[i + 1].deletedIps <==> IpNotedBy(j, turns, i + 1, ip)
    ensures id in dones[i + 1].deletedNodes <==> id == j.nodeId && NodeNotedBy(j, turns, i + 1)
  {
    RemainingIs(j, turns, dones, i);
    SteppedNotes(j, dones[i], turns[i]);
    IpNotedStep(j, turns, i, ip);
    NodeNotedStep(j, turns, i);
  }

  /** The networks are loaded with their lists in step. */
  ghost predicate InOrder(j: Job) {
    OnNetworks(j.machines) && InStep(j.stored, j.machines)
  }

  lemma {:induction false} CleanedAfter(j: Job, turns: seq<Turn>, states: seq<map<string, NetState>>, n: nat)
    requires InOrder(j) && AreTurns(j, turns, states) && n <= |turns|
    ensures AllCleaned(j.stored, states[n], j.nodeId, j.machines[..n])
  {
    if n > 0 {
      var t, m := turns[n - 1], j.machines[n - 1];
      assert m in j.machines;
      TakeStep(j.machines, n - 1);
      CleanedAfter(j, turns, states, n - 1);
      NotReserved(j.stored, m.data.network);
      AllCleanedStep(j.stored, states[n - 1], j.nodeId, j.machines[..n - 1], m);
    }
  }

  lemma NotReserved(stored: map<string, StoredNetwork>, name: string)
    ensures StateOf(stored, name).reserved == []
  {
  }

  lemma {:induction false} ContractsKept(j: Job, turns: seq<Turn>, states: seq<map<string, NetState>>, n: nat,
                                         name: string)
    requires AreTurns(j, turns, states) && n <= |turns| && name in states[n]
    ensures SameContracts(StateOf(j.stored, name).nodes, states[n][name].nodes)
  {
    if n > 0 {
      var t := turns[n - 1];
      if name in states[n - 1] {
        ContractsKept(j, turns, states, n - 1, name);
      }
      if t.network == name {
        CleanSameContracts(StateOf(j.stored, name).nodes, t.found, j.nodeId, t.ip);
      }
    }
  }

  lemma FoundInOrder(j: Job, turns: seq<Turn>, states: seq<map<string, NetState>>, i: nat)
    requires InOrder(j) && AreTurns(j, turns, states) && i < |turns|
    ensures Consistent(turns[i].found) && Consistent(StateOf(j.stored, turns[i].network))
    ensures SameContracts(StateOf(j.stored, turns[i].network).nodes, turns[i].found.nodes)
  {
    var t := turns[i];
    assert j.machines[i] in j.machines;
    CleanedAfter(j, turns, states, i);
    ReadyToClean(j.stored, states[i], j.nodeId, j.machines[..i], t.network);
    if t.network in states[i] {
      ContractsKept(j, turns, states, i, t.network);
    }
  }

  /** A member of a network as it was stored is none any more. */
  ghost predicate LeftBy(j: Job, states: map<string, NetState>, name: string, node: NodeView) {
    name in states && node in StateOf(j.stored, name).nodes && !HasSite(states[name].sites, node.nodeId)
  }

  /** Who leaves in a turn is found as a member by it. */
  lemma FoundLeaver(j: Job, t: Turn, m: Workload, before: map<string, NetState>, after: map<string, NetState>,
                    name: string, node: NodeView)
    requires TurnsFrom(j, t, m, before, after) && Consistent(StateOf(j.stored, t.network))
    requires !LeftBy(j, before, name, node) && LeftBy(j, after, name, node)
    ensures t.network == name && HasSite(t.found.sites, node.nodeId)
    ensures !HasSite(CleanStep(t.found, j.nodeId, t.ip).sites, node.nodeId)
  {
    if t.network == name && name !in before {
      RecordIsMember(StateOf(j.stored, name), node);
    }
  }

  lemma LeavesThen(j: Job, done: Outcome, t: Turn, m: Workload, before: map<string, NetState>,
                   after: map<string, NetState>, name: string, node: NodeView)
    requires TurnsFrom(j, t, m, before, after)
    requires Consistent(t.found) && Consistent(StateOf(j.stored, t.network))
    requires SameContracts(StateOf(j.stored, t.network).nodes, t.found.nodes)
    requires !LeftBy(j, before, name, node) && LeftBy(j, after, name, node)
    ensures TakenOut(j, Stepped(j, done, t), name, node)
  {
    FoundLeaver(j, t, m, before, after, name, node);
    var now := SameContract(StateOf(j.stored, t.network), t.found, node);
    LeavesInTurn(j, done, t, now);
    TakenOutAlike(j, Stepped(j, done, t), name, now, node);
  }

  lemma TakenOutAlike(j: Job, done: Outcome, name: string, now: NodeView, node: NodeView)
    requires TakenOut(j, done, name, now) && now.nodeId == node.nodeId && now.contractId == node.contractId
    ensures TakenOut(j, done, name, node)
  {
  }

  /** Every member that left one of the networks has its table taken out of its deployment. */
  lemma {:induction false} LeaversTakenOut(j: Job, turns: seq<Turn>, states: seq<map<string, NetState>>,
                                           dones: seq<Outcome>, n: nat, name: string, node: NodeView)
    requires InOrder(j) && AreTurns(j, turns, states) && AreOutcomes(j, turns, dones) && n <= |turns|
    requires LeftBy(j, states[n], name, node)
    ensures TakenOut(j, dones[n], name, node)
  {
    if n > 0 {
      if LeftBy(j, states[n - 1], name, node) {
        LeaversTakenOut(j, turns, states, dones, n - 1, name, node);
      }
      TakenOutNext(j, turns, states, dones, n - 1, name, node);
    }
  }

  lemma TakenOutNext(j: Job, turns: seq<Turn>, states: seq<map<string, NetState>>, dones: seq<Outcome>, i: nat,
                     name: string, node: NodeView)
    requires InOrder(j) && AreTurns(j, turns, states) && AreOutcomes(j, turns, dones) && i < |turns|
    requires LeftBy(j, states[i + 1], name, node)
    requires LeftBy(j, states[i], name, node) ==> TakenOut(j, dones[i], name, node)
    ensures TakenOut(j, dones[i + 1], name, node)
  {
    var t, done := turns[i], dones[i];
    assert dones[i + 1] == Stepped(j, done, t);
    if LeftBy(j, states[i], name, node) {
      StaysTakenOut(j, done, t, name, node);
    } else {
      FoundInOrder(j, turns, states, i);
      LeavesThen(j, done, t, j.machines[i], states[i], states[i + 1], name, node);
    }
  }

  // ----- Nothing else is planned

  /** The operation frees a stored deployment of the network, and its contract is that of a member let go then. */
  ghost predicate FreesFor(j: Job, t: Turn, op: TwinView, d: DeploymentView) {
    && d in DeploymentsOf(j.stored, t.network) && Frees(op, d, t.network) && LetsGo(t.found, j.nodeId, t.ip)
    && (ContractOf(t.found.nodes, j.nodeId) == d.contractId || LastGoes(t.found, j.nodeId, d.contractId))
  }

  ghost predicate PlannedIn(j: Job, t: Turn, op: TwinView) {
    op == DeleteOwn(j, t.network) || exists d :: FreesFor(j, t, op, d)
  }

  ghost predicate PlannedBy(j: Job, turns: seq<Turn>, n: nat, op: TwinView)
    requires n <= |turns|
  {
    exists i :: 0 <= i < n && PlannedIn(j, turns[i], op)
  }

  lemma SteppedPlans(j: Job, done: Outcome, t: Turn, op: TwinView)
    requires op in Stepped(j, done, t).ops && op !in done.ops
    ensures PlannedIn(j, t, op)
  {
    var ds := DeploymentsOf(j.stored, t.network);
    DroppedIs(t.found, j.nodeId, t.ip);
    var dropped, last := DroppedContract(t.found, j.nodeId, t.ip), AlsoDropped(t.found, j.nodeId, t.ip);
    if dropped.Some? && op in DropOps(ds, dropped.value, t.network) {
      InDropOps(ds, dropped.value, t.network, op);
      var d :| d in ds && d.contractId == dropped.value && Frees(op, d, t.network);
      assert FreesFor(j, t, op, d);
    } else if last.Some? && op in DropOps(ds, last.value, t.network) {
      InDropOps(ds, last.value, t.network, op);
      AlsoDroppedIs(t.found, j.nodeId, t.ip, last.value);
      var d :| d in ds && d.contractId == last.value && Frees(op, d, t.network);
      assert FreesFor(j, t, op, d);
    }
  }

  /** Every operation was planned in some turn, for the deployment itself or for a member let go then. */
  lemma {:induction false} OpsPlanned(j: Job, turns: seq<Turn>, dones: seq<Outcome>, n: nat, op: TwinView)
    requires AreOutcomes(j, turns, dones) && n <= |turns| && op in dones[n].ops
    ensures PlannedBy(j, turns, n, op)
  {
    if n > 0 {
      var t := turns[n - 1];
      if op in dones[n - 1].ops {
        OpsPlanned(j, turns, dones, n - 1, op);
      } else {
        SteppedPlans(j, dones[n - 1], t, op);
      }
    }
  }

  // ----- The whole of it

  /** The outcome is just what the turns ask for: what remains, what is deleted and freed, and what is noted. */
  ghost predicate Accounted(j: Job, turns: seq<Turn>, states: map<string, NetState>, out: Outcome) {
    var n := |turns|;
    && out.remaining == Remains(j, turns, n)
    && (forall name :: DeleteOwn(j, name) in out.ops <==> DeletedBy(j, turns, n, name))
    && (forall ip :: ip in out.deletedIps <==> IpNotedBy(j, turns, n, ip))
    && (forall id :: id in out.deletedNodes <==> id == j.nodeId && NodeNotedBy(j, turns, n))
    && (forall name, node :: LeftBy(j, states, name, node) ==> TakenOut(j, out, name, node))
    && (forall op :: op in out.ops ==> PlannedBy(j, turns, n, op))
  }

  lemma AccountedFor(j: Job, turns: seq<Turn>, states: seq<map<string, NetState>>, dones: seq<Outcome>)
    requires InOrder(j) && AreTurns(j, turns, states) && AreOutcomes(j, turns, dones)
    ensures Accounted(j, turns, states[|turns|], dones[|turns|])
  {
    var n := |turns|;
    RemainingIs(j, turns, dones, n);
    forall name ensures DeleteOwn(j, name) in dones[n].ops <==> DeletedBy(j, turns, n, name) {
      OwnDeletedIff(j, turns, dones, n, name);
    }
    forall ip ensures ip in dones[n].deletedIps <==> IpNotedBy(j, turns, n, ip) {
      NotedIff(j, turns, dones, n, ip, 0);
    }
    forall id ensures id in dones[n].deletedNodes <==> id == j.nodeId && NodeNotedBy(j, turns, n) {
      NotedIff(j, turns, dones, n, 0, id);
    }
    forall name, node | LeftBy(j, states[n], name, node) ensures TakenOut(j, dones[n], name, node) {
      LeaversTakenOut(j, turns, states, dones, n, name, node);
    }
    forall op | op in dones[n].ops ensures PlannedBy(j, turns, n, op) {
      OpsPlanned(j, turns, dones, n, op);
    }
  }

  /** The outcome for all machines is accounted for by their turns. */
  lemma AccountsFor(j: Job) returns (turns: seq<Turn>, states: seq<map<string, NetState>>)
    requires InOrder(j)
    ensures AreTurns(j, turns, states) && states[|turns|] == CleanAll(j.stored, j.machines, j.nodeId)
    ensures Accounted(j, turns, states[|turns|], OutcomeAll(j.stored, j.deployment, j.kept, j.machines, j.nodeId))
  {
    var dones;
    turns, states, dones := TurnsOf(j);
    AccountedFor(j, turns, states, dones);
  }

  lemma {:induction false} TurnsOf(j: Job)
    returns (turns: seq<Turn>, states: seq<map<string, NetState>>, dones: seq<Outcome>)
    requires OnNetworks(j.machines)
    ensures AreTurns(j, turns, states) && AreOutcomes(j, turns, dones)
    ensures states[|turns|] == CleanAll(j.stored, j.machines, j.nodeId)
    ensures dones[|turns|] == OutcomeAll(j.stored, j.deployment, j.kept, j.machines, j.nodeId)
    decreases |j.machines|
  {
    if j.machines == [] {
      turns, states, dones := [], [map[]], [Outcome([], j.kept, [], [])];
    } else {
      var f, m := Front(j.machines), Last(j.machines);
      assert j.machines == f + [m] && m in j.machines && forall x :: x in f ==> x in j.machines;
      var less := j.(machines := f);
      turns, states, dones := TurnsOf(less);
      OneMore(j.stored, j.deployment, j.kept, j.machines, j.nodeId);
      var n, before := |turns|, states[|turns|];
      var t := Turn(CurrentState(j.stored, before, m.data.network), m.data.network, m.data.ip);
      var after := before[t.network := CleanStep(t.found, j.nodeId, t.ip)];
      OneMoreTurn(j, less, turns, states, dones, t, after);
      turns, states, dones := turns + [t], states + [after], dones + [Stepped(j, dones[n], t)];
    }
  }

  lemma OneMoreTurn(j: Job, less: Job, turns: seq<Turn>, states: seq<map<string, NetState>>, dones: seq<Outcome>,
                    t: Turn, after: map<string, NetState>)
    requires AreTurns(less, turns, states) && AreOutcomes(less, turns, dones)
    requires |j.machines| == |less.machines| + 1 && less == j.(machines := Front(j.machines))
    requires TurnsFrom(j, t, Last(j.machines), states[|turns|], after)
    ensures AreTurns(j, turns + [t], states + [after])
    ensures AreOutcomes(j, turns + [t], dones + [Stepped(j, dones[|turns|], t)])
  {
    OneMoreState(j, less, turns, states, t, after);
    OneMoreOutcome(j, less, turns, dones, t);
  }

  lemma OneMoreState(j: Job, less: Job, turns: seq<Turn>, states: seq<map<string, NetState>>, t: Turn,
                     after: map<string, NetState>)
    requires AreTurns(less, turns, states)
    requires |j.machines| == |less.machines| + 1 && less == j.(machines := Front(j.machines))
    requires TurnsFrom(j, t, Last(j.machines), states[|turns|], after)
    ensures AreTurns(j, turns + [t], states + [after])
  {
    var ts, ss := turns + [t], states + [after];
    forall i | 0 <= i < |ts| ensures TurnsFrom(j, ts[i], j.machines[i], ss[i], ss[i + 1]) {
      if i < |turns| {
        assert turns[i] == ts[i] && less.machines[i] == j.machines[i];
        assert TurnsFrom(less, turns[i], less.machines[i], states[i], states[i + 1]);
      }
    }
  }

  lemma OneMoreOutcome(j: Job, less: Job, turns: seq<Turn>, dones: seq<Outcome>, t: Turn)
    requires AreOutcomes(less, turns, dones) && j == less.(machines := j.machines)
    ensures AreOutcomes(j, turns + [t], dones + [Stepped(j, dones[|turns|], t)])
  {
    var ts, ds := turns + [t], dones + [Stepped(j, dones[|turns|], t)];
    forall i | 0 <= i < |ts| ensures ds[i + 1] == Stepped(j, ds[i], ts[i]) {
      if i < |turns| {
        assert turns[i] == ts[i] && dones[i + 1] == Stepped(less, dones[i], turns[i]);
      }
    }
  }
}
