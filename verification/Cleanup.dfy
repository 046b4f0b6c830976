/** Letting go of a network's members along with deleted machines, on the network objects themselves
    (`HighLevelBase._deleteMachineNetwork`). */
module Cleanup {
  import opened Lists
  import opened Overlay
  import opened Allocation
  import opened Workloads
  import opened Networks
  import opened Cleaning
  import opened CleanupPlan

  method PlanDrop(deployments: seq<DeploymentView>, contractId: nat, name: string) returns (ops: seq<TwinView>)
    ensures ops == DropOps(deployments, contractId, name)
  {
    ops := [];
    for i := 0 to |deployments|
      invariant ops == DropOps(deployments[..i], contractId, name)
    {
      TakeStep(deployments, i);
      var d := deployments[i];
      if d.contractId != contractId {
        continue;
      }
      if |d.workloads| == 1 {
        ops := ops + [TwinView(d, Delete, 0, 0, Some(name))];
      } else {
        ops := ops + [TwinView(d.(workloads := WithoutName(d.workloads, name)), Update, 0, 0, Some(name))];
      }
    }
    TakeAll(deployments);
  }

  lemma EmptyNetworkStays(s: NetState, id: NodeId)
    requires s.nodes == [] && s.sites == []
    ensures Apply(s, DeleteNode(id)) == s
  {
  }

  lemma ObjectsDiffer(net: Network)
    requires Consistent(net.State())
    ensures net.Valid()
  {
    var s := net.State();
    forall i, j | 0 <= i < j < |net.networks| ensures net.networks[i].site.nodeId != net.networks[j].site.nodeId {
      assert s.sites[i].nodeId != s.sites[j].nodeId;
    }
    forall i, j | 0 <= i < j < |net.nodes| ensures net.nodes[i] != net.nodes[j] {
      assert s.sites[i].nodeId != s.sites[j].nodeId && s.nodes[i].nodeId != s.nodes[j].nodeId;
    }
  }

  /** An address in this model lies in its network's range, so a network of another range is never met here. */
  method LoadInto(net: Network, stored: StoredNetwork) returns (ok: bool)
    requires net.State() == NetState([], [], [], []) && net.nodes == [] && net.networks == []
    modifies net`nodes, net`networks, net`accessPoints
    ensures ok <==> forall n :: n in stored.nodes ==> n.contractId in stored.published
    ensures ok ==> net.State() == LoadedState(stored)
    ensures forall n :: n in net.nodes ==> fresh(n)
  {
    var loaded := net.Load(stored.nodes, true, stored.published);
    if loaded.Err? {
      return false;
    }
    assert net.NodeViews() == LoadedNodes(stored.nodes, stored.published);
    assert net.NetViews() == LoadedNets(stored.nodes, stored.published);
    SitesOfViews(net);
    return true;
  }

  lemma SitesOfViews(net: Network)
    ensures net.Sites() == SitesOf(net.NetViews())
  {
  }

  method LoadNetwork(stored: map<string, StoredNetwork>, name: string) returns (r: Result<Network, NetError>)
    requires Consistent(StateOf(stored, name))
    ensures r.Ok? <==> Loadable(stored, name)
    ensures r.Ok? ==> r.value.Valid() && r.value.State() == StateOf(stored, name)
    ensures r.Ok? ==> fresh(r.value) && forall n :: n in r.value.nodes ==> fresh(n)
  {
    var net := new Network(map[], map[]);
    assert net.nodes == [] && net.networks == [];
    if name in stored {
      var loaded := LoadInto(net, stored[name]);
      if !loaded {
        return Err(DeploymentNotFound);
      }
    }
    ObjectsDiffer(net);
    return Ok(net);
  }

  /** Lets go of a member, if the network is a stored one. */
  method DropNode(net: Network, nodeId: NodeId, isStored: bool) returns (contractId: nat)
    requires net.Valid() && net.reservedSubnets == [] && (isStored || (net.nodes == [] && net.networks == []))
    modifies net`nodes, net`networks
    ensures net.Valid() && net.State() == Apply(old(net.State()), DeleteNode(nodeId))
    ensures contractId == ContractOf(old(net.NodeViews()), nodeId)
    ensures forall n :: n in net.nodes ==> n in old(net.nodes)
  {
    if !isStored {
      EmptyNetworkStays(net.State(), nodeId);
    }
    var dropped := net.DeleteNode(nodeId, isStored);
    return dropped.value;
  }

  /** Gives back one machine's address and lets go of the members this empties. */
  method CleanOne(net: Network, id: NodeId, ip: Ip, isStored: bool)
    returns (dropped: Option<nat>, lastDropped: Option<nat>)
    requires net.Valid() && net.reservedSubnets == [] && (isStored || (net.nodes == [] && net.networks == []))
    modifies net, net.nodes
    ensures net.Valid() && net.State() == CleanStep(old(net.State()), id, ip)
    ensures forall n :: n in net.nodes ==> n in old(net.nodes)
    ensures dropped == DroppedContract(old(net.State()), id, ip) && lastDropped == AlsoDropped(old(net.State()), id, ip)
  {
    dropped, lastDropped := None, None;
    var freed := net.DeleteReservedIp(id, ip);
    var ips := net.GetNodeReservedIps(id);
    if |ips| != 0 {
      return;
    }
    var hasAccessPoint := net.HasAccessPoint(id);
    if hasAccessPoint && |net.nodes| != 1 {
      return;
    }
    var contractId := DropNode(net, id, isStored);
    dropped := Some(contractId);
    lastDropped := DropLast(net, isStored);
  }

  /** A single member left goes too, once it has no address out. */
  method DropLast(net: Network, isStored: bool) returns (dropped: Option<nat>)
    requires net.Valid() && net.reservedSubnets == [] && (isStored || (net.nodes == [] && net.networks == []))
    modifies net`nodes, net`networks
    ensures net.Valid() && net.State() == WithoutLast(old(net.State())) && dropped == LastContract(old(net.State()))
    ensures forall n :: n in net.nodes ==> n in old(net.nodes)
  {
    if |net.nodes| != 1 {
      return None;
    }
    var last := net.nodes[0].nodeId;
    assert net.NodeViews()[0].nodeId == last;
    var ips := net.GetNodeReservedIps(last);
    if |ips| != 0 {
      return None;
    }
    var contractId := DropNode(net, last, isStored);
    return Some(contractId);
  }

  /** The loaded objects and their records are in `repr`, and no two networks share any. */
  ghost predicate Separate(loaded: map<string, Network>, repr: set<object>)
    reads repr
  {
    && (forall name :: name in loaded ==> loaded[name] in repr && forall n :: n in loaded[name].nodes ==> n in repr)
    && (forall a, b | a in loaded && b in loaded && a != b ::
          loaded[a] != loaded[b] && forall n :: n in loaded[a].nodes ==> n !in loaded[b].nodes)
  }

  /** The loaded objects are in the states noted for them. */
  ghost predicate Tracked(loaded: map<string, Network>, states: map<string, NetState>, repr: set<object>)
    reads repr
  {
    && Separate(loaded, repr) && loaded.Keys == states.Keys
    && forall name :: name in loaded ==> loaded[name].State() == states[name]
  }

  method CleanNext(loaded: map<string, Network>, name: string, nodeId: NodeId, ip: Ip, isStored: bool,
                   ghost states: map<string, NetState>, ghost repr: set<object>)
    returns (dropped: Option<nat>, lastDropped: Option<nat>)
    requires Tracked(loaded, states, repr) && name in loaded && Cleanable(states[name], isStored)
    modifies repr
    ensures Separate(loaded, repr) && loaded[name].State() == CleanStep(states[name], nodeId, ip)
    ensures dropped == DroppedContract(states[name], nodeId, ip) && lastDropped == AlsoDropped(states[name], nodeId, ip)
    ensures forall other :: other in loaded && other != name ==> loaded[other].State() == states[other]
  {
    var net := loaded[name];
    ObjectsDiffer(net);
    assert |net.nodes| == |net.NodeViews()| && |net.networks| == |net.Sites()|;
    dropped, lastDropped := CleanOne(net, nodeId, ip, isStored);
    assert Separate(loaded, repr);
    forall other | other in loaded && other != name
      ensures loaded[other].State() == states[other]
    {
      assert loaded[other] != net;
      forall i | 0 <= i < |loaded[other].nodes|
        ensures loaded[other].nodes[i].View() == old(loaded[other].nodes[i].View())
      {
        assert loaded[other].nodes[i] !in old(net.nodes);
      }
      StaysAsItIs(loaded[other]);
    }
  }

  /** A network none of whose objects is touched stays in its state. */
  twostate lemma StaysAsItIs(net: Network)
    requires net.nodes == old(net.nodes) && net.networks == old(net.networks)
    requires net.accessPoints == old(net.accessPoints) && net.reservedSubnets == old(net.reservedSubnets)
    requires forall i :: 0 <= i < |net.nodes| ==> net.nodes[i].View() == old(net.nodes[i].View())
    ensures net.State() == old(net.State())
  {
    assert net.NodeViews() == old(net.NodeViews());
    assert net.Sites() == old(net.Sites());
  }

  lemma TrackedAgain(loaded: map<string, Network>, states: map<string, NetState>, name: string, after: NetState,
                     repr: set<object>)
    requires Separate(loaded, repr) && loaded.Keys == states.Keys + {name} && loaded[name].State() == after
    requires forall other :: other in loaded && other != name ==>
               other in states && loaded[other].State() == states[other]
    ensures Tracked(loaded, states[name := after], repr)
  {
  }

  lemma SetSame(states: map<string, NetState>, name: string)
    requires name in states
    ensures states[name := states[name]] == states
  {
  }

  lemma TurnIs(stored: map<string, StoredNetwork>, machines: seq<Workload>, m: Workload, nodeId: NodeId)
    requires OnNetworks(machines) && m.data.MachineData? && InStep(stored, machines + [m])
    ensures var name, states := m.data.network, CleanAll(stored, machines, nodeId);
            var s := CurrentState(stored, states, name);
            && OnNetworks(machines + [m]) && Cleanable(s, name in stored)
            && states[name := s][name := CleanStep(s, nodeId, m.data.ip)] == CleanAll(stored, machines + [m], nodeId)
  {
    var name, states := m.data.network, CleanAll(stored, machines, nodeId);
    assert m in machines + [m] && InStep(stored, machines);
    AllAreCleaned(stored, machines, nodeId);
    ReadyToClean(stored, states, nodeId, machines, name);
    SetTwice(states, name, CurrentState(stored, states, name),
             CleanStep(CurrentState(stored, states, name), nodeId, m.data.ip));
    assert Front(machines + [m]) == machines && Last(machines + [m]) == m;
  }

  /** The network's object, in state `s`, loaded when first met. */
  method Open(loaded: map<string, Network>, stored: map<string, StoredNetwork>, name: string,
              ghost states: map<string, NetState>, ghost s: NetState, ghost repr: set<object>)
    returns (ok: bool, loaded': map<string, Network>, ghost repr': set<object>)
    requires Tracked(loaded, states, repr) && s == CurrentState(stored, states, name) && Consistent(s)
    ensures ok ==> Tracked(loaded', states[name := s], repr') && fresh(repr' - repr)
    ensures ok ==> loaded'.Keys == loaded.Keys + {name}
    ensures !ok ==> !Loadable(stored, name)
  {
    if name in loaded {
      SetSame(states, name);
      return true, loaded, repr;
    }
    var net := LoadNetwork(stored, name);
    if net.Err? {
      return false, loaded, repr;
    }
    repr' := repr + {net.value} + (set n | n in net.value.nodes);
    assert Tracked(loaded, states, repr);
    TrackedWith(loaded, states, name, net.value, repr, repr');
    return true, loaded[name := net.value], repr';
  }

  lemma TrackedWith(loaded: map<string, Network>, states: map<string, NetState>, name: string, net: Network,
                    repr: set<object>, repr': set<object>)
    requires Tracked(loaded, states, repr) && name !in loaded && repr <= repr' && net !in repr
    requires net in repr' && forall n :: n in net.nodes ==> n in repr' && n !in repr
    ensures Tracked(loaded[name := net], states[name := net.State()], repr')
  {
    SeparateWith(loaded, name, net, repr, repr');
  }

  lemma SeparateWith(loaded: map<string, Network>, name: string, net: Network, repr: set<object>, repr': set<object>)
    requires Separate(loaded, repr) && name !in loaded && repr <= repr' && net !in repr
    requires net in repr' && forall n :: n in net.nodes ==> n in repr' && n !in repr
    ensures Separate(loaded[name := net], repr')
  {
  }

  /** One machine's turn, on its network's object. */
  method CleanMachine(net: Network, name: string, nodeId: NodeId, ip: Ip, isStored: bool, loaded: map<string, Network>,
                      ghost states: map<string, NetState>, ghost repr: set<object>)
    returns (dropped: Option<nat>, lastDropped: Option<nat>)
    requires Tracked(loaded, states, repr) && name in loaded && net == loaded[name]
    requires Cleanable(states[name], isStored)
    modifies repr
    ensures Tracked(loaded, states[name := CleanStep(states[name], nodeId, ip)], repr)
    ensures dropped == DroppedContract(states[name], nodeId, ip) && lastDropped == AlsoDropped(states[name], nodeId, ip)
  {
    dropped, lastDropped := CleanNext(loaded, name, nodeId, ip, isStored, states, repr);
    TrackedAgain(loaded, states, name, CleanStep(states[name], nodeId, ip), repr);
  }

  method Turn(loaded: map<string, Network>, stored: map<string, StoredNetwork>, name: string, nodeId: NodeId, ip: Ip,
              ghost states: map<string, NetState>, ghost s: NetState, ghost repr: set<object>)
    returns (ok: bool, dropped: Option<nat>, lastDropped: Option<nat>, loaded': map<string, Network>,
             ghost repr': set<object>)
    requires Tracked(loaded, states, repr) && s == CurrentState(stored, states, name) && Cleanable(s, name in stored)
    modifies repr
    ensures ok ==> Tracked(loaded', states[name := s][name := CleanStep(s, nodeId, ip)], repr') && fresh(repr' - repr)
    ensures ok ==> dropped == DroppedContract(s, nodeId, ip) && lastDropped == AlsoDropped(s, nodeId, ip)
    ensures !ok ==> !Loadable(stored, name)
  {
    dropped, lastDropped := None, None;
    ok, loaded', repr' := Open(loaded, stored, name, states, s, repr);
    if ok {
      dropped, lastDropped :=
        CleanMachine(loaded'[name], name, nodeId, ip, name in stored, loaded', states[name := s], repr');
    }
  }

  /** What one machine's clean-up means for the deployment and its operations. */
  method PlanFor(done: Outcome, deployment: DeploymentView, name: string, ip: Ip, nodeId: NodeId,
                 deployments: seq<DeploymentView>, dropped: Option<nat>, lastDropped: Option<nat>)
    returns (done': Outcome)
    ensures done' == PlanStep(done, deployment, name, ip, nodeId, deployments, dropped, lastDropped)
  {
    done' := done;
    if |done.remaining| == 0 {
      done' := done'.(ops := done'.ops + [TwinView(deployment, Delete, 0, 0, Some(name))]);
    }
    if dropped.None? {
      return done'.(deletedIps := done'.deletedIps + [ip]);
    }
    if dropped.value == deployment.contractId {
      if |done'.remaining| == 1 {
        done' := done'.(ops := done'.ops + [TwinView(deployment, Delete, 0, 0, Some(name))], remaining := []);
      } else {
        done' := done'.(remaining := WithoutName(done'.remaining, name),
                        deletedIps := done'.deletedIps + [ip], deletedNodes := done'.deletedNodes + [nodeId]);
      }
    } else {
      var more := PlanDrop(deployments, dropped.value, name);
      done' := done'.(ops := done'.ops + more);
    }
    if lastDropped.Some? {
      var more := PlanDrop(deployments, lastDropped.value, name);
      done' := done'.(ops := done'.ops + more);
    }
  }

  /** One more machine. */
  method Advance(loaded: map<string, Network>, stored: map<string, StoredNetwork>, deployment: DeploymentView,
                 m: Workload, nodeId: NodeId, done: Outcome, ghost kept: seq<Workload>, ghost machines: seq<Workload>,
                 ghost repr: set<object>)
    returns (ok: bool, done': Outcome, loaded': map<string, Network>, ghost repr': set<object>)
    requires OnNetworks(machines) && m.data.MachineData? && InStep(stored, machines + [m])
    requires Tracked(loaded, CleanAll(stored, machines, nodeId), repr)
    requires done == OutcomeAll(stored, deployment, kept, machines, nodeId)
    modifies repr
    ensures OnNetworks(machines + [m])
    ensures ok ==> fresh(repr' - repr) && Tracked(loaded', CleanAll(stored, machines + [m], nodeId), repr')
    ensures ok ==> done' == OutcomeAll(stored, deployment, kept, machines + [m], nodeId)
    ensures !ok ==> !Loadable(stored, m.data.network)
  {
    var name := m.data.network;
    TurnIs(stored, machines, m, nodeId);
    assert Front(machines + [m]) == machines && Last(machines + [m]) == m;
    ghost var states := CleanAll(stored, machines, nodeId);
    ghost var s := CurrentState(stored, states, name);
    var dropped, lastDropped;
    ok, dropped, lastDropped, loaded', repr' := Turn(loaded, stored, name, nodeId, m.data.ip, states, s, repr);
    done' := done;
    if ok {
      done' := PlanFor(done, deployment, name, m.data.ip, nodeId, DeploymentsOf(stored, name), dropped, lastDropped);
    }
  }

  /** Each machine's address is given back on its network, which is loaded when first met; every network ends up
      without the deleted machines' addresses and without the members that emptied, and what left is planned for. */
  method DeleteMachineNetwork(deployment: DeploymentView, kept: seq<Workload>, machines: seq<Workload>, nodeId: NodeId,
                              stored: map<string, StoredNetwork>)
    returns (r: Result<Outcome, NetError>, loaded: map<string, Network>,
             ghost turns: seq<Turn>, ghost states: seq<map<string, NetState>>)
    requires OnNetworks(machines) && InStep(stored, machines)
    ensures r.Ok? ==> var j := Job(stored, deployment, kept, machines, nodeId);
                      && AreTurns(j, turns, states) && Accounted(j, turns, states[|turns|], r.value)
                      && states[|turns|] == CleanAll(stored, machines, nodeId)
    ensures r.Ok? ==> r.value == OutcomeAll(stored, deployment, kept, machines, nodeId)
    ensures r.Ok? ==> var states := CleanAll(stored, machines, nodeId);
                      && loaded.Keys == states.Keys
                      && (forall name :: name in loaded ==> loaded[name].State() == states[name])
                      && AllCleaned(stored, states, nodeId, machines) && Carries(r.value, kept, states, nodeId)
    ensures r.Err? ==> exists name :: UsedBy(machines, name) && !Loadable(stored, name)
  {
    var done := Outcome([], kept, [], []);
    ghost var repr: set<object> := {};
    loaded := map[];
    for i := 0 to |machines|
      modifies {}
      invariant OnNetworks(machines[..i])
      invariant fresh(repr) && Tracked(loaded, CleanAll(stored, machines[..i], nodeId), repr)
      invariant done == OutcomeAll(stored, deployment, kept, machines[..i], nodeId)
    {
      TakeStep(machines, i);
      var m := machines[i];
      assert m in machines && InStep(stored, machines[..i + 1]);
      var ok;
      ok, done, loaded, repr := Advance(loaded, stored, deployment, m, nodeId, done, kept, machines[..i], repr);
      if !ok {
        return Err(DeploymentNotFound), loaded, [], [];
      }
    }
    TakeAll(machines);
    AllAreCleaned(stored, machines, nodeId);
    OutcomeCarries(stored, deployment, kept, machines, nodeId);
    turns, states := AccountsFor(Job(stored, deployment, kept, machines, nodeId));
    return Ok(done), loaded, turns, states;
  }
}
