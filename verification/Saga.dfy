/** Carrying out a merged plan against the chain and the nodes (`deploy`, `rollback`, `handle`). */
module Saga {
  import opened Lists
  import opened Overlay
  import opened Workloads
  import opened Ledger

  datatype SagaError = CreateFailed | DeployFailed | RollbackFailed | UpdateFailed | NotFound | NotReady

  datatype Report = Report(created: seq<CreatedRef>, updated: seq<nat>, deleted: seq<nat>)

  /** Taking a new deployment back works exactly if its names are registered and none is used twice. */
  predicate Compensable(c: Chain, d: DeploymentView) {
    Distinct(GatewayNames(d.workloads)) && forall n :: n in GatewayNames(d.workloads) ==> n in c.names
  }

  /** Node contracts of `c` other than `but` are as they were in `d`. */
  ghost predicate NodesKept(c: Chain, d: Chain, but: set<nat>) {
    && c.next <= d.next
    && forall id :: id in c.contracts && c.contracts[id].NodeContract? ==>
         id in d.contracts && (id in but || d.contracts[id] == c.contracts[id])
  }

  /** Taking one new contract back leaves all other node contracts alone. */
  lemma TakenBackKeepsNodes(c: Chain, d: DeploymentView, id: nat)
    requires Sound(c) && d.contractId == id && id in c.contracts && c.contracts[id].NodeContract?
    ensures var (after, ok) := RolledBack(c, [d], [UnderContractId(id)]);
            && NodesKept(c, after, {id}) && Sound(after)
            && (ok <==> Compensable(c, d))
            && (if ok then !Live(after, id) else after.contracts[id] == c.contracts[id])
  {
    var names := GatewayNames(d.workloads);
    NamesCancelledIff(c, names);
    var none: seq<DeploymentView> := [];
    assert Front([d]) == none && RolledBack(c, none, [UnderContractId(id)]) == (c, true);
    assert id != 0;
  }

  lemma NamesOfTwo(a: Workload, b: Workload)
    requires a.wtype == b.wtype == GatewayNameProxy && a.data.NamedData? && b.data.NamedData?
    ensures GatewayNames([a, b]) == [a.data.name, b.data.name]
  {
    var none: seq<Workload> := [];
    assert Front([a, b]) == [a] && Front([a]) == none && GatewayNames([a]) == [a.data.name];
  }

  lemma RegisteredTwice(c: Chain, name: string)
    requires name !in c.names
    ensures Registered(c, [name, name]) == WithName(c, name) && !Distinct([name, name])
  {
    var none: seq<string> := [];
    assert Front([name, name]) == [name] && Front([name]) == none && Registered(c, [name]) == WithName(c, name);
    assert [name, name][0] == [name, name][1];
  }

  /** A deployment refused right after its names were registered is taken back exactly if none is used twice. */
  lemma RefusedTakenBackIff(c: Chain, d: DeploymentView, node: NodeId)
    requires Sound(c)
    ensures Refused(c, d, node).1 <==> Distinct(GatewayNames(d.workloads))
    ensures !Refused(c, d, node).1 ==> Live(Refused(c, d, node).0, Registered(c, GatewayNames(d.workloads)).next)
  {
    var names := GatewayNames(d.workloads);
    RegisteredAre(c, names);
    var named := Registered(c, names);
    TakenBackKeepsNodes(WithNode(named, node), d.(contractId := named.next), named.next);
  }

  /** A name used twice is cancelled once, and then the deployment's own contract stays. */
  lemma DoubleNameSticks(node: NodeId)
    ensures var d := DeploymentView(0, 0, [Workload("a", GatewayNameProxy, 0, "", "", NamedData("site", "")),
                                           Workload("b", GatewayNameProxy, 0, "", "", NamedData("site", ""))]);
            var (after, ok) := Refused(Chain(map[], map[], 1), d, node);
            !ok && Live(after, 2)
  {
    var a := Workload("a", GatewayNameProxy, 0, "", "", NamedData("site", ""));
    var b := Workload("b", GatewayNameProxy, 0, "", "", NamedData("site", ""));
    var c, d := Chain(map[], map[], 1), DeploymentView(0, 0, [a, b]);
    NamesOfTwo(a, b);
    RegisteredTwice(c, "site");
    RefusedTakenBackIff(c, d, node);
  }

  // ----- What a plan does to the node contracts

  ghost function LiveNodes(c: Chain): set<nat> {
    set id | id in c.contracts && c.contracts[id].NodeContract? && c.contracts[id].live
  }

  function LiveAfter(live: set<nat>, op: Operation, id: nat): set<nat> {
    match op
    case Deploy => live + {id}
    case Update => live
    case Delete => live - {id}
  }

  /** Created contracts are noted as the objects the chain answered with. */
  function Noting(report: Report, op: Operation, id: nat): Report {
    match op
    case Deploy => report.(created := report.created + [ChainObject(id)])
    case Update => report.(updated := report.updated + [id])
    case Delete => report.(deleted := report.deleted + [id])
  }

  function Ids(report: Report): set<nat> {
    set c | c in report.created :: c.id
  }

  function Targets(ts: seq<TwinView>, op: Operation): seq<nat> {
    if ts == [] then []
    else Targets(Front(ts), op) + if Last(ts).operation == op then [Last(ts).deployment.contractId] else []
  }

  /** An operation of that kind is on that contract. */
  lemma {:induction false} InTargets(ts: seq<TwinView>, op: Operation, id: nat)
    ensures id in Targets(ts, op) <==> exists t :: t in ts && t.operation == op && t.deployment.contractId == id
  {
    if ts != [] {
      assert ts == Front(ts) + [Last(ts)];
      InTargets(Front(ts), op, id);
    }
  }

  /** The report lists the operations carried out, in order; created contracts under ids of their own. */
  ghost predicate Reports(report: Report, ts: seq<TwinView>) {
    && report.updated == Targets(ts, Operation.Update)
    && report.deleted == Targets(ts, Operation.Delete)
    && |report.created| == |Targets(ts, Operation.Deploy)|
    && forall c :: c in report.created ==> c.ChainObject?
  }

  /** Since `was`, exactly the reported contracts (and those stuck) came to life and the reported ones died. */
  ghost predicate Tracks(was: Chain, now: Chain, report: Report, stuck: set<nat>) {
    && was.contracts.Keys <= now.contracts.Keys
    && LiveNodes(now) == LiveNodes(was) + Ids(report) + stuck - (set id | id in report.deleted)
    && (Ids(report) + stuck) !! was.contracts.Keys
    && (forall id :: id in report.deleted ==> id in now.contracts)
    && Ids(report) <= now.contracts.Keys
  }

  lemma TracksStep(was: Chain, before: Chain, now: Chain, report: Report, op: Operation, id: nat)
    requires Tracks(was, before, report, {}) && before.contracts.Keys <= now.contracts.Keys
    requires LiveNodes(now) == LiveAfter(LiveNodes(before), op, id) && id in now.contracts
    requires op == Operation.Deploy ==> id !in before.contracts
    ensures Tracks(was, now, Noting(report, op, id), {})
  {
    var noted := Noting(report, op, id);
    assert Ids(noted) == if op == Operation.Deploy then Ids(report) + {id} else Ids(report) by {
      if op == Operation.Deploy {
        assert ChainObject(id) in noted.created;
      }
    }
    assert (set x | x in noted.deleted) ==
           if op == Operation.Delete then (set x | x in report.deleted) + {id} else set x | x in report.deleted;
  }

  lemma ReportsStep(report: Report, ts: seq<TwinView>, t: TwinView, id: nat)
    requires Reports(report, ts) && (t.operation != Operation.Deploy ==> id == t.deployment.contractId)
    ensures Reports(Noting(report, t.operation, id), ts + [t])
  {
    assert Front(ts + [t]) == ts;
  }

  lemma TracksStuck(was: Chain, before: Chain, now: Chain, report: Report, stuck: set<nat>)
    requires Tracks(was, before, report, {}) && before.contracts.Keys <= now.contracts.Keys
    requires LiveNodes(now) == LiveNodes(before) + stuck && stuck !! before.contracts.Keys
    ensures Tracks(was, now, report, stuck)
  {
  }

  lemma LiveNodesAfterNames(c: Chain, names: seq<string>)
    requires Sound(c)
    ensures LiveNodes(NamesCancelled(c, names).0) == LiveNodes(c)
    ensures NamesCancelled(c, names).0.contracts.Keys == c.contracts.Keys
  {
    NamesCancelledIff(c, names);
    var d := NamesCancelled(c, names).0;
    forall id ensures id in LiveNodes(d) <==> id in LiveNodes(c) {
      assert id in d.contracts <==> id in c.contracts;
    }
  }

  lemma SameLiveNodes(c: Chain, names: seq<string>)
    requires Sound(c)
    ensures LiveNodes(Registered(c, names)) == LiveNodes(c) && c.contracts.Keys <= Registered(c, names).contracts.Keys
  {
    RegisteredAre(c, names);
    var d := Registered(c, names);
    forall id ensures id in LiveNodes(d) <==> id in LiveNodes(c) {
      assert id in d.contracts && id !in c.contracts ==> MadeFor(c, d, names, id);
    }
  }

  lemma CancelEffect(c: Chain, id: nat)
    requires Sound(c) && id in c.contracts
    ensures var d := Cancelled(c, id);
            && Sound(d) && d.contracts.Keys == c.contracts.Keys
            && LiveNodes(d) == LiveNodes(c) - {id} && ContractsKept(c, d)
  {
  }

  /** What deleting a deployment does to node contracts, and to names that are not its own. */
  lemma DeleteEffect(c: Chain, d: DeploymentView)
    requires Sound(c)
    ensures var named := NamesCancelled(c, GatewayNames(d.workloads)).0;
            && LiveNodes(named) == LiveNodes(c) && named.contracts.Keys == c.contracts.Keys
            && OthersKept(c, named, GatewayNames(d.workloads))
            && (d.contractId in named.contracts ==>
                  && Sound(Cancelled(named, d.contractId))
                  && Cancelled(named, d.contractId).contracts.Keys == c.contracts.Keys
                  && LiveNodes(Cancelled(named, d.contractId)) == LiveNodes(c) - {d.contractId}
                  && ContractsKept(c, Cancelled(named, d.contractId)))
  {
    LiveNodesAfterNames(c, GatewayNames(d.workloads));
    CancelledKeepsOthers(c, GatewayNames(d.workloads));
    var named := NamesCancelled(c, GatewayNames(d.workloads)).0;
    if d.contractId in named.contracts {
      CancelEffect(named, d.contractId);
      ContractsKeptTrans(c, named, Cancelled(named, d.contractId));
    }
  }

  lemma ContractsKeptTrans(c: Chain, d: Chain, e: Chain)
    requires ContractsKept(c, d) && ContractsKept(d, e)
    ensures ContractsKept(c, e)
  {
  }

  /** A deploy that fails leaves its own contract live exactly if its taking back failed. */
  lemma LiveNodesAfterDeploy(c: Chain, d: DeploymentView, node: NodeId)
    requires Sound(c)
    ensures LiveNodes(WithNode(c, node)) == LiveNodes(c) + {c.next}
    ensures var (after, ok) := RolledBack(WithNode(c, node), [d.(contractId := c.next)], [UnderContractId(c.next)]);
            && LiveNodes(after) == LiveNodes(c) + (if ok then {} else {c.next})
            && after.contracts.Keys == WithNode(c, node).contracts.Keys
            && (ok <==> Compensable(WithNode(c, node), d))
  {
    var id, withNode := c.next, WithNode(c, node);
    TakenBackKeepsNodes(withNode, d.(contractId := id), id);
    RollbackExactly(withNode, [d.(contractId := id)], [UnderContractId(id)], id);
    var after := RolledBack(withNode, [d.(contractId := id)], [UnderContractId(id)]).0;
    forall x ensures x in LiveNodes(after) <==> x in LiveNodes(c) || (x == id && Live(after, id)) {
      assert x in after.contracts <==> x in withNode.contracts;
    }
  }

  /** What a deploy with that outcome leaves live. */
  lemma StuckAfterDeploy(c: Chain, after: Chain, d: DeploymentView, node: NodeId, r: Result<nat, SagaError>)
    returns (stuck: set<nat>)
    requires Sound(c)
    requires r.Ok? ==> r.value == c.next && after == WithNode(c, node)
    requires r == Err(CreateFailed) ==> after == c
    requires r.Err? && r.error != CreateFailed ==>
               r.error in {DeployFailed, RollbackFailed} &&
               (after, r.error == DeployFailed)
               == RolledBack(WithNode(c, node), [d.(contractId := c.next)], [UnderContractId(c.next)])
    ensures stuck == if r == Err(RollbackFailed) then {c.next} else {}
    ensures LiveNodes(after) == LiveNodes(c) + stuck + if r.Ok? then {r.value} else {}
    ensures c.contracts.Keys <= after.contracts.Keys && stuck <= after.contracts.Keys
    ensures r == Err(RollbackFailed) ==> !Compensable(c, d)
    ensures r == Err(DeployFailed) ==> Compensable(c, d)
  {
    LiveNodesAfterDeploy(c, d, node);
    stuck := if r == Err(RollbackFailed) then {c.next} else {};
  }

  /** The nodes a plan deploys on, in order. */
  function Hosts(ts: seq<TwinView>): seq<NodeId> {
    if ts == [] then []
    else Hosts(Front(ts)) + if Last(ts).operation == Operation.Deploy then [Last(ts).nodeId] else []
  }

  /** Each created contract is for the node its deployment was planned on. */
  ghost predicate OnHosts(now: Chain, report: Report, ts: seq<TwinView>) {
    && |report.created| == |Hosts(ts)|
    && forall k :: 0 <= k < |report.created| ==> For(now, report.created[k].id, Hosts(ts)[k])
  }

  predicate For(c: Chain, id: nat, node: NodeId) {
    id in c.contracts && c.contracts[id].NodeContract? && c.contracts[id].node == node
  }

  lemma StillOnHosts(c: Chain, d: Chain, report: Report, ts: seq<TwinView>)
    requires OnHosts(c, report, ts) && ContractsKept(c, d)
    ensures OnHosts(d, report, ts)
  {
  }

  lemma OnHostsStep(c: Chain, d: Chain, report: Report, ts: seq<TwinView>, t: TwinView, id: nat)
    requires OnHosts(c, report, ts) && ContractsKept(c, d)
    requires t.operation == Operation.Deploy ==> For(d, id, t.nodeId)
    ensures OnHosts(d, Noting(report, t.operation, id), ts + [t])
  {
    assert Front(ts + [t]) == ts;
    StillOnHosts(c, d, report, ts);
  }

  // ----- What a plan does to the names

  /** The operation gives the name up. */
  predicate Drops(t: TwinView, n: string) {
    t.operation == Operation.Delete && Wants(t.deployment.workloads, n)
  }

  /** The operation has the name registered. */
  predicate Registers(t: TwinView, n: string) {
    t.operation != Operation.Delete && Wants(t.deployment.workloads, n)
  }

  /** After an operation that went through, the names of its gateways are registered, or gone if it was a delete; no
      other name and no older name contract has changed otherwise. */
  ghost predicate NameAsAsked(c: Chain, d: Chain, t: TwinView, n: string) {
    && (Registers(t, n) ==> n in d.names && (n in c.names ==> d.names[n] == c.names[n]))
    && (Drops(t, n) ==> n !in d.names)
    && (!Wants(t.deployment.workloads, n) ==> NameKept(c, d, n))
  }

  ghost predicate NameContractAsAsked(c: Chain, d: Chain, t: TwinView, id: nat)
    requires id in c.contracts
  {
    c.contracts[id].NameContract? ==>
      && id in d.contracts
      && d.contracts[id] == if t.operation == Operation.Delete && Wants(t.deployment.workloads, c.contracts[id].name)
                            then NameContract(c.contracts[id].name, false) else c.contracts[id]
  }

  ghost predicate NamesAsAsked(c: Chain, d: Chain, t: TwinView) {
    (forall n :: NameAsAsked(c, d, t, n)) && forall id :: id in c.contracts ==> NameContractAsAsked(c, d, t, id)
  }

  /** What is to be deleted is a deployment: its contract, if there is one, is a node's. */
  predicate OfDeployment(c: Chain, t: TwinView) {
    t.operation == Operation.Delete && t.deployment.contractId in c.contracts ==>
      c.contracts[t.deployment.contractId].NodeContract?
  }

  /** Every contract is still there, for the same node or the same name. */
  ghost predicate ContractsKept(c: Chain, d: Chain) {
    forall id :: id in c.contracts ==>
      && id in d.contracts
      && match c.contracts[id]
         case NodeContract(node, _) => d.contracts[id].NodeContract? && d.contracts[id].node == node
         case NameContract(name, _) => d.contracts[id].NameContract? && d.contracts[id].name == name
  }

  lemma ContractsOfCancelled(c: Chain, d: Chain)
    requires OnlyCancelled(c, d)
    ensures ContractsKept(c, d)
  {
  }

  /** A new or changed deployment that went through. */
  lemma RegisteredAsAsked(c: Chain, d: Chain, t: TwinView)
    requires Sound(c) && t.operation != Operation.Delete
    requires var named := Registered(c, GatewayNames(t.deployment.workloads));
             d.names == named.names && forall id :: id in named.contracts ==>
               id in d.contracts && d.contracts[id] == named.contracts[id]
    ensures NamesAsAsked(c, d, t) && ContractsKept(c, d)
  {
    var names := GatewayNames(t.deployment.workloads);
    RegisteredAre(c, names);
    forall n ensures NameAsAsked(c, d, t, n) {
      InGatewayNames(t.deployment.workloads, n);
      if n in c.names || n !in names {
        RegisteredNamesKept(c, names, n);
      }
    }
  }

  /** A deployment that was deleted. */
  lemma CancelledAsAsked(c: Chain, t: TwinView)
    requires Sound(c) && t.operation == Operation.Delete && OfDeployment(c, t)
    requires NamesCancelled(c, GatewayNames(t.deployment.workloads)).1 && t.deployment.contractId in c.contracts
    ensures var named := NamesCancelled(c, GatewayNames(t.deployment.workloads)).0;
            && t.deployment.contractId in named.contracts
            && NamesAsAsked(c, Cancelled(named, t.deployment.contractId), t)
  {
    var names := GatewayNames(t.deployment.workloads);
    var named := NamesCancelled(c, names).0;
    NamesCancelledIff(c, names);
    var d := Cancelled(named, t.deployment.contractId);
    forall n ensures NameAsAsked(c, d, t, n) {
      InGatewayNames(t.deployment.workloads, n);
      if n !in names {
        OtherNamesKept(c, names, n);
      }
    }
    forall id | id in c.contracts ensures NameContractAsAsked(c, d, t, id) {
      if c.contracts[id].NameContract? {
        InGatewayNames(t.deployment.workloads, c.contracts[id].name);
        NameContractsAfter(c, names, id);
      }
    }
  }

  /** Names that are none of the deployment's are as they were. */
  ghost predicate OthersKept(c: Chain, d: Chain, names: seq<string>) {
    ContractsKept(c, d) && forall n :: n !in names ==> NameKept(c, d, n)
  }

  lemma OthersKeptTrans(c: Chain, d: Chain, e: Chain, names: seq<string>)
    requires OthersKept(c, d, names) && OthersKept(d, e, names)
    ensures OthersKept(c, e, names)
  {
    forall n | n !in names ensures NameKept(c, e, n) {
      assert NameKept(c, d, n) && NameKept(d, e, n);
    }
  }

  lemma RegisteredKeepsOthers(c: Chain, names: seq<string>, k: nat)
    requires Sound(c) && k <= |names|
    ensures OthersKept(c, Registered(c, names[..k]), names)
  {
    RegisteredAre(c, names[..k]);
    forall n | n !in names ensures NameKept(c, Registered(c, names[..k]), n) {
      RegisteredNamesKept(c, names[..k], n);
    }
  }

  lemma CancelledKeepsOthers(c: Chain, names: seq<string>)
    requires Sound(c)
    ensures OthersKept(c, NamesCancelled(c, names).0, names)
  {
    NamesCancelledIff(c, names);
    ContractsOfCancelled(c, NamesCancelled(c, names).0);
    forall n | n !in names ensures NameKept(c, NamesCancelled(c, names).0, n) {
      OtherNamesKept(c, names, n);
    }
  }

  lemma TakenBackKeepsOthers(c: Chain, d: DeploymentView, node: NodeId)
    requires Sound(c)
    ensures OthersKept(c, RolledBack(WithNode(c, node), [d.(contractId := c.next)], [UnderContractId(c.next)]).0,
                       GatewayNames(d.workloads))
  {
    var all, own, noted := WithNode(c, node), d.(contractId := c.next), [UnderContractId(c.next)];
    var after := RolledBack(all, [own], noted).0;
    RollbackExactly(all, [own], noted, 0);
    ContractsOfCancelled(all, after);
    assert ContractsKept(c, all);
    forall n | n !in GatewayNames(d.workloads) ensures NameKept(c, after, n) {
      TakenBackNamesKept(all, own, noted, n);
    }
  }

  /** What an operation that goes through makes of the chain. */
  ghost predicate CarriedOut(c: Chain, d: Chain, t: TwinView)
    requires Sound(c)
  {
    var names := GatewayNames(t.deployment.workloads);
    match t.operation
    case Deploy => d == WithNode(Registered(c, names), t.nodeId)
    case Update => d == Registered(c, names)
    case Delete =>
      var (named, ok) := NamesCancelled(c, names);
      ok && t.deployment.contractId in named.contracts && d == Cancelled(named, t.deployment.contractId)
  }

  lemma CarriedAsAsked(c: Chain, d: Chain, t: TwinView)
    requires Sound(c) && OfDeployment(c, t) && CarriedOut(c, d, t)
    ensures NamesAsAsked(c, d, t)
  {
    var names := GatewayNames(t.deployment.workloads);
    if t.operation == Operation.Delete {
      NamesCancelledIff(c, names);
      CancelledAsAsked(c, t);
    } else {
      RegisteredAre(c, names);
      RegisteredAsAsked(c, d, t);
    }
  }

  lemma KeptIfUnwanted(c: Chain, d: Chain, ws: seq<Workload>)
    requires OthersKept(c, d, GatewayNames(ws))
    ensures forall n :: !Wants(ws, n) ==> NameKept(c, d, n)
  {
    forall n | !Wants(ws, n) ensures NameKept(c, d, n) {
      InGatewayNames(ws, n);
    }
  }

  /** Whether a name is registered once the first `k` operations are done: an operation had it registered and none
      after that gave it up, or it was registered and none gave it up. */
  ghost predicate RegisteredBy(was: Chain, ts: seq<TwinView>, k: nat, n: string)
    requires k <= |ts|
  {
    || (n in was.names && forall l :: 0 <= l < k ==> !Drops(ts[l], n))
    || exists a :: 0 <= a < k && Registers(ts[a], n) && forall l :: a < l < k ==> !Drops(ts[l], n)
  }

  lemma RegisteredByStep(was: Chain, ts: seq<TwinView>, k: nat, n: string)
    requires k < |ts|
    ensures RegisteredBy(was, ts, k + 1, n) <==>
            Registers(ts[k], n) || (RegisteredBy(was, ts, k, n) && !Drops(ts[k], n))
  {
  }

  /** The plan deletes deployments only, none of them made on the way. */
  predicate DeletesDeployments(c: Chain, ts: seq<TwinView>) {
    forall t :: t in ts && t.operation == Operation.Delete ==>
      t.deployment.contractId in c.contracts && c.contracts[t.deployment.contractId].NodeContract?
  }

  /** The names registered are as the first `k` operations leave them, and who kept a name has it as before. */
  ghost predicate NamesBy(was: Chain, now: Chain, ts: seq<TwinView>, k: nat)
    requires k <= |ts|
  {
    forall n :: NameBy(was, now, ts, k, n)
  }

  ghost predicate NameBy(was: Chain, now: Chain, ts: seq<TwinView>, k: nat, n: string)
    requires k <= |ts|
  {
    && (n in now.names <==> RegisteredBy(was, ts, k, n))
    && (n in was.names && (forall l :: 0 <= l < k ==> !Drops(ts[l], n)) ==>
          n in now.names && now.names[n] == was.names[n])
  }

  lemma NameByStep(was: Chain, c: Chain, d: Chain, ts: seq<TwinView>, k: nat, n: string)
    requires k < |ts| && NameBy(was, c, ts, k, n) && NameAsAsked(c, d, ts[k], n)
    ensures NameBy(was, d, ts, k + 1, n)
  {
    RegisteredByStep(was, ts, k, n);
  }

  lemma NamesByStep(was: Chain, c: Chain, d: Chain, ts: seq<TwinView>, k: nat)
    requires k < |ts| && NamesBy(was, c, ts, k) && NamesAsAsked(c, d, ts[k])
    ensures NamesBy(was, d, ts, k + 1)
  {
    var next := k + 1;
    forall n ensures NameBy(was, d, ts, next, n) {
      NameByStep(was, c, d, ts, k, n);
    }
  }

  /** What is known of the names while a plan is carried out, if it deletes deployments only. */
  ghost predicate NamesFollow(was: Chain, now: Chain, ts: seq<TwinView>, k: nat)
    requires k <= |ts|
  {
    ContractsKept(was, now) && (DeletesDeployments(was, ts) ==> NamesBy(was, now, ts, k))
  }

  lemma StillDeployments(was: Chain, now: Chain, ts: seq<TwinView>, k: nat)
    requires k < |ts| && ContractsKept(was, now) && DeletesDeployments(was, ts)
    ensures OfDeployment(now, ts[k])
  {
    assert ts[k] in ts;
  }

  lemma NamesFollowStep(was: Chain, c: Chain, d: Chain, ts: seq<TwinView>, k: nat)
    requires k < |ts| && NamesFollow(was, c, ts, k) && ContractsKept(c, d)
    requires OfDeployment(c, ts[k]) ==> NamesAsAsked(c, d, ts[k])
    ensures NamesFollow(was, d, ts, k + 1)
  {
    if DeletesDeployments(was, ts) {
      StillDeployments(was, c, ts, k);
      NamesByStep(was, c, d, ts, k);
    }
  }

  /** After a failure the names follow the operations done, but for those of the operation that failed. */
  ghost predicate NamesAtEnd(was: Chain, now: Chain, ts: seq<TwinView>, done: nat)
    requires done <= |ts|
  {
    DeletesDeployments(was, ts) ==>
      forall n :: (done < |ts| ==> !Wants(ts[done].deployment.workloads, n)) ==> NameBy(was, now, ts, done, n)
  }

  lemma NamesFollowFailure(was: Chain, c: Chain, d: Chain, ts: seq<TwinView>, k: nat)
    requires k < |ts| && NamesFollow(was, c, ts, k)
    requires forall n :: !Wants(ts[k].deployment.workloads, n) ==> NameKept(c, d, n)
    ensures NamesAtEnd(was, d, ts, k)
  {
    if DeletesDeployments(was, ts) {
      forall n | !Wants(ts[k].deployment.workloads, n) ensures NameBy(was, d, ts, k, n) {
        assert NameBy(was, c, ts, k, n) && NameKept(c, d, n);
      }
    }
  }

  class Executor {
    var chain: Chain

    constructor ()
      ensures Sound(chain) && chain == Chain(map[], map[], 1)
    {
      chain := Chain(map[], map[], 1);
    }

    method CreateNameContract(name: string) returns (ok: bool)
      requires Sound(chain)
      modifies this
      ensures Sound(chain)
      ensures ok ==> chain == if name in old(chain.names) then old(chain) else WithName(old(chain), name)
      ensures !ok ==> chain == old(chain) && name !in chain.names
    {
      if name in chain.names {
        return true;
      }
      var created: bool := *;
      if created {
        chain := WithName(chain, name);
      }
      return created;
    }

    /** Cancelling fails for a name nobody registered. */
    method DeleteNameContract(name: string) returns (ok: bool)
      requires Sound(chain)
      modifies this
      ensures Sound(chain)
      ensures ok <==> name in old(chain.names)
      ensures chain == if ok then Cancelled(old(chain), old(chain.names)[name]) else old(chain)
    {
      if name !in chain.names {
        return false;
      }
      chain := Cancelled(chain, chain.names[name]);
      return true;
    }

    method DeleteNames(names: seq<string>) returns (ok: bool)
      requires Sound(chain)
      modifies this
      ensures Sound(chain) && (chain, ok) == NamesCancelled(old(chain), names)
    {
      for i := 0 to |names|
        invariant Sound(chain) && (chain, true) == NamesCancelled(old(chain), names[..i])
      {
        TakeStep(names, i);
        var deleted := DeleteNameContract(names[i]);
        if !deleted {
          NamesStop(old(chain), names, i + 1);
          return false;
        }
      }
      TakeAll(names);
      return true;
    }

    method CreateNames(names: seq<string>) returns (ok: bool)
      requires Sound(chain)
      modifies this
      ensures Sound(chain) && old(chain).contracts.Keys <= chain.contracts.Keys
      ensures LiveNodes(chain) == LiveNodes(old(chain)) && OthersKept(old(chain), chain, names)
      ensures ok ==> chain == Registered(old(chain), names)
      ensures !ok ==>
                exists k :: 0 <= k < |names| && chain == Registered(old(chain), names[..k]) && names[k] !in chain.names
    {
      for i := 0 to |names|
        invariant Sound(chain) && chain == Registered(old(chain), names[..i])
      {
        TakeStep(names, i);
        var created := CreateNameContract(names[i]);
        if !created {
          SameLiveNodes(old(chain), names[..i]);
          RegisteredKeepsOthers(old(chain), names, i);
          return false;
        }
      }
      TakeAll(names);
      SameLiveNodes(old(chain), names);
      RegisteredKeepsOthers(old(chain), names, |names|);
      return true;
    }

    /** One deployment is taken back if its contract is noted under its own id. */
    method TakeBack(d: DeploymentView, created: seq<CreatedRef>) returns (ok: bool)
      requires Sound(chain)
      modifies this
      ensures (chain, ok) == TakenBack(old(chain), d, created) && Sound(chain)
    {
      if d.contractId == 0 || !Noted(created, d.contractId) {
        return true;
      }
      var named := DeleteNames(GatewayNames(d.workloads));
      if !named || d.contractId !in chain.contracts {
        return false;
      }
      chain := Cancelled(chain, d.contractId);
      return true;
    }

    /** Cancels what is noted under its own id, leaving updated deployments alone. */
    method Rollback(ds: seq<DeploymentView>, created: seq<CreatedRef>) returns (ok: bool)
      requires Sound(chain)
      modifies this
      ensures Sound(chain) && (chain, ok) == RolledBack(old(chain), ds, created)
    {
      ghost var was := chain;
      for i := 0 to |ds|
        invariant Sound(was) && Sound(chain) && (chain, true) == RolledBack(was, ds[..i], created)
      {
        TakeStep(ds, i);
        var taken := TakeBack(ds[i], created);
        if !taken {
          RollbackStops(was, ds, created, i + 1);
          return false;
        }
      }
      TakeAll(ds);
      return true;
    }

    /** Creates a contract and hands the deployment to the node; when the node refuses, the contract is taken back
        before the error escapes, provided its names allow it. */
    method Deploy(d: DeploymentView, node: NodeId) returns (r: Result<nat, SagaError>)
      requires Sound(chain)
      modifies this
      ensures Sound(chain)
      ensures r.Ok? ==> r.value == old(chain.next) && chain == WithNode(old(chain), node)
      ensures r.Ok? ==> chain.contracts == old(chain).contracts[r.value := NodeContract(node, true)]
                        && chain.names == old(chain).names
      ensures r.Err? ==> r.error in {CreateFailed, DeployFailed, RollbackFailed}
      ensures r == Err(CreateFailed) ==> chain == old(chain)
      ensures r == Err(DeployFailed) ==> Compensable(old(chain), d) && !Live(chain, old(chain.next))
      ensures r == Err(RollbackFailed) ==> !Compensable(old(chain), d) && Live(chain, old(chain.next))
      ensures r.Err? && r.error != CreateFailed ==>
                var id := old(chain.next);
                (chain, r.error == DeployFailed)
                == RolledBack(WithNode(old(chain), node), [d.(contractId := id)], [UnderContractId(id)])
      ensures NodesKept(old(chain), chain, {}) && OthersKept(old(chain), chain, GatewayNames(d.workloads))
    {
      var created: bool := *;
      if !created {
        return Err(CreateFailed);
      }
      var id := chain.next;
      chain := WithNode(chain, node);
      ghost var withNode := chain;
      var reached: bool := *;
      if !reached {
        TakenBackKeepsNodes(withNode, d.(contractId := id), id);
        TakenBackKeepsOthers(old(chain), d, node);
        var ok := Rollback([d.(contractId := id)], [UnderContractId(id)]);
        return Err(if ok then DeployFailed else RollbackFailed);
      }
      return Ok(id);
    }

    /** A new deployment with the name contracts it needs. If the deploying fails, its contract stays behind only
        if one of its names is used twice. */
    method DeployNamed(d: DeploymentView, node: NodeId) returns (r: Result<nat, SagaError>, ghost stuck: set<nat>)
      requires Sound(chain)
      modifies this
      ensures Sound(chain) && old(chain).contracts.Keys <= chain.contracts.Keys
      ensures LiveNodes(chain) == LiveNodes(old(chain)) + stuck + if r.Ok? then {r.value} else {}
      ensures r.Ok? ==> stuck == {} && r.value !in old(chain).contracts && For(chain, r.value, node)
      ensures stuck !! old(chain).contracts.Keys && stuck <= chain.contracts.Keys && |stuck| <= 1
      ensures stuck != {} <==> r == Err(RollbackFailed)
      ensures r == Err(RollbackFailed) ==> !Distinct(GatewayNames(d.workloads))
      ensures r == Err(DeployFailed) ==> Distinct(GatewayNames(d.workloads))
      ensures r.Ok? ==> chain == WithNode(Registered(old(chain), GatewayNames(d.workloads)), node)
      ensures OthersKept(old(chain), chain, GatewayNames(d.workloads))
      ensures r.Err? && r.error != CreateFailed ==> (chain, r.error == DeployFailed) == Refused(old(chain), d, node)
      ensures r == Err(DeployFailed) ==>
                ((forall id :: Live(chain, id) <==> Live(old(chain), id))
                 <==> forall n :: n in GatewayNames(d.workloads) ==> n !in old(chain).names)
    {
      RegisteredAre(chain, GatewayNames(d.workloads));
      var named := CreateNames(GatewayNames(d.workloads));
      if !named {
        return Err(CreateFailed), {};
      }
      ghost var before := chain;
      r := Deploy(d, node);
      stuck := StuckAfterDeploy(before, chain, d, node, r);
      OthersKeptTrans(old(chain), before, chain, GatewayNames(d.workloads));
      if r == Err(DeployFailed) {
        RefusedLeavesNothingIff(old(chain), d, node);
      }
    }

    /** Updating needs the contract to be there; the names it asks for stay even if it fails. */
    method UpdateNamed(d: DeploymentView) returns (r: Result<nat, SagaError>)
      requires Sound(chain)
      modifies this
      ensures Sound(chain) && old(chain).contracts.Keys <= chain.contracts.Keys
      ensures LiveNodes(chain) == LiveNodes(old(chain))
      ensures r.Ok? ==> r.value == d.contractId && r.value in LiveNodes(old(chain))
      ensures r.Ok? ==> chain == Registered(old(chain), GatewayNames(d.workloads))
      ensures OthersKept(old(chain), chain, GatewayNames(d.workloads))
      ensures r.Err? ==> r.error in {CreateFailed, UpdateFailed}
    {
      var named := CreateNames(GatewayNames(d.workloads));
      if !named {
        return Err(CreateFailed);
      }
      var accepted: bool := *;
      if accepted && Live(chain, d.contractId) && chain.contracts[d.contractId].NodeContract? {
        return Ok(d.contractId);
      }
      return Err(UpdateFailed);
    }

    method DeleteNamed(d: DeploymentView) returns (r: Result<nat, SagaError>)
      requires Sound(chain)
      modifies this
      ensures Sound(chain) && old(chain).contracts.Keys == chain.contracts.Keys
      ensures r.Ok? <==> NamesCancelled(old(chain), GatewayNames(d.workloads)).1 && d.contractId in chain.contracts
      ensures r.Ok? ==> r.value == d.contractId
      ensures var named := NamesCancelled(old(chain), GatewayNames(d.workloads)).0;
              if r.Ok? then d.contractId in named.contracts && chain == Cancelled(named, d.contractId)
              else chain == named && OthersKept(old(chain), chain, GatewayNames(d.workloads))
      ensures ContractsKept(old(chain), chain)
      ensures LiveNodes(chain) == LiveNodes(old(chain)) - if r.Ok? then {d.contractId} else {}
      ensures r.Err? ==> r.error == NotFound
    {
      DeleteEffect(chain, d);
      var unnamed := DeleteNames(GatewayNames(d.workloads));
      if unnamed && d.contractId in chain.contracts {
        chain := Cancelled(chain, d.contractId);
        r := Ok(d.contractId);
      } else {
        r := Err(NotFound);
      }
    }

    method CarryOp(t: TwinView) returns (r: Result<nat, SagaError>, ghost stuck: set<nat>)
      requires Sound(chain)
      modifies this
      ensures Sound(chain) && old(chain).contracts.Keys <= chain.contracts.Keys
      ensures r.Ok? ==> LiveNodes(chain) == LiveAfter(LiveNodes(old(chain)), t.operation, r.value)
      ensures r.Ok? ==> stuck == {} && r.value in chain.contracts
                        && if t.operation == Operation.Deploy
                           then r.value !in old(chain).contracts && For(chain, r.value, t.nodeId)
                           else r.value == t.deployment.contractId
      ensures r.Err? ==> LiveNodes(chain) == LiveNodes(old(chain)) + stuck
      ensures stuck !! old(chain).contracts.Keys && stuck <= chain.contracts.Keys && |stuck| <= 1
      ensures stuck != {} <==> r == Err(RollbackFailed)
      ensures stuck != {} ==> !Distinct(GatewayNames(t.deployment.workloads))
      ensures ContractsKept(old(chain), chain)
      ensures if r.Ok? then CarriedOut(old(chain), chain, t)
              else OthersKept(old(chain), chain, GatewayNames(t.deployment.workloads))
    {
      stuck := {};
      match t.operation
      case Deploy =>
        r, stuck := DeployNamed(t.deployment, t.nodeId);
      case Update =>
        r := UpdateNamed(t.deployment);
      case Delete =>
        r := DeleteNamed(t.deployment);
    }

    /** One planned operation; answers with the contract it was about. What went through leaves the names of its
        gateways registered, or gone if it was a delete, and what failed leaves other names alone. */
    method Carry(t: TwinView) returns (r: Result<nat, SagaError>, ghost stuck: set<nat>)
      requires Sound(chain)
      modifies this
      ensures Sound(chain) && old(chain).contracts.Keys <= chain.contracts.Keys
      ensures r.Ok? ==> LiveNodes(chain) == LiveAfter(LiveNodes(old(chain)), t.operation, r.value)
      ensures r.Ok? ==> stuck == {} && r.value in chain.contracts
                        && if t.operation == Operation.Deploy
                           then r.value !in old(chain).contracts && For(chain, r.value, t.nodeId)
                           else r.value == t.deployment.contractId
      ensures r.Err? ==> LiveNodes(chain) == LiveNodes(old(chain)) + stuck
      ensures stuck !! old(chain).contracts.Keys && stuck <= chain.contracts.Keys && |stuck| <= 1
      ensures stuck != {} <==> r == Err(RollbackFailed)
      ensures stuck != {} ==> !Distinct(GatewayNames(t.deployment.workloads))
      ensures ContractsKept(old(chain), chain)
      ensures r.Ok? && OfDeployment(old(chain), t) ==> NamesAsAsked(old(chain), chain, t)
      ensures r.Err? ==> forall n :: !Wants(t.deployment.workloads, n) ==> NameKept(old(chain), chain, n)
    {
      r, stuck := CarryOp(t);
      if r.Err? {
        KeptIfUnwanted(old(chain), chain, t.deployment.workloads);
      } else if OfDeployment(old(chain), t) {
        CarriedAsAsked(old(chain), chain, t);
      }
    }

    method CarryNoted(t: TwinView, report: Report, ghost was: Chain)
      returns (r: Result<nat, SagaError>, ghost stuck: set<nat>)
      requires Sound(chain) && Tracks(was, chain, report, {})
      modifies this
      ensures Sound(chain) && |stuck| <= 1
      ensures r.Ok? ==> stuck == {} && Tracks(was, chain, Noting(report, t.operation, r.value), {})
                        && if t.operation == Operation.Deploy then For(chain, r.value, t.nodeId)
                           else r.value == t.deployment.contractId
      ensures r.Err? ==> Tracks(was, chain, report, stuck)
      ensures stuck != {} ==> !Distinct(GatewayNames(t.deployment.workloads))
      ensures ContractsKept(old(chain), chain)
      ensures r.Ok? && OfDeployment(old(chain), t) ==> NamesAsAsked(old(chain), chain, t)
      ensures r.Err? ==> forall n :: !Wants(t.deployment.workloads, n) ==> NameKept(old(chain), chain, n)
    {
      ghost var before := chain;
      r, stuck := Carry(t);
      if r.Ok? {
        TracksStep(was, before, chain, report, t.operation, r.value);
      } else {
        TracksStuck(was, before, chain, report, stuck);
      }
    }

    /** The rollback of a plan: it takes nothing back, for it knows no created contract under its own id. */
    method GiveUp(ds: seq<DeploymentView>, report: Report)
      requires Sound(chain) && forall c :: c in report.created ==> c.ChainObject?
      modifies this
      ensures chain == old(chain)
    {
      ChainObjectsAreNotRolledBack(chain, ds, report.created);
      var rolledBack := Rollback(ds, report.created);
    }

    /** The operations one after the other, up to the first that fails. */
    method CarryAll(ts: seq<TwinView>)
      returns (contracts: Report, ds: seq<DeploymentView>, failure: Option<SagaError>, ghost done: nat,
               ghost stuck: set<nat>)
      requires Sound(chain)
      modifies this
      ensures Sound(chain) && Tracks(old(chain), chain, contracts, stuck) && |stuck| <= 1
      ensures done <= |ts| && Reports(contracts, ts[..done])
      ensures failure.None? ==> done == |ts| && stuck == {}
      ensures stuck != {} ==> done < |ts| && !Distinct(GatewayNames(ts[done].deployment.workloads))
      ensures ContractsKept(old(chain), chain) && OnHosts(chain, contracts, ts[..done])
      ensures NamesAtEnd(old(chain), chain, ts, done)
    {
      contracts, failure, done, stuck := Report([], [], []), None, 0, {};
      ds := seq(|ts|, i requires 0 <= i < |ts| => ts[i].deployment);
      for i := 0 to |ts|
        invariant Sound(chain) && |ds| == |ts| && stuck == {} && done == i
        invariant Tracks(old(chain), chain, contracts, {})
        invariant Reports(contracts, ts[..i]) && OnHosts(chain, contracts, ts[..i])
        invariant NamesFollow(old(chain), chain, ts, i)
      {
        TakeStep(ts, i);
        ghost var before := chain;
        var id;
        id, stuck := CarryNoted(ts[i], contracts, old(chain));
        if id.Err? {
          failure := Some(id.error);
          NamesFollowFailure(old(chain), before, chain, ts, i);
          StillOnHosts(before, chain, contracts, ts[..i]);
          return;
        }
        NamesFollowStep(old(chain), before, chain, ts, i);
        ReportsStep(contracts, ts[..i], ts[i], id.value);
        OnHostsStep(before, chain, contracts, ts[..i], ts[i], id.value);
        contracts := Noting(contracts, ts[i].operation, id.value);
        ds := ds[i := ds[i].(contractId := id.value)];
        done := i + 1;
      }
      TakeAll(ts);
    }

    /** Carries a plan out. When something fails on the way, nothing that was created before is taken back: the
        rollback knows no created contract under its own id. */
    method Execute(ts: seq<TwinView>)
      returns (r: Result<Report, SagaError>, ghost report: Report, ghost done: nat, ghost stuck: set<nat>)
      requires Sound(chain)
      modifies this
      ensures Sound(chain)
      ensures r.Ok? ==> r.value == report && done == |ts| && stuck == {}
      ensures done <= |ts| && Reports(report, ts[..done])
      ensures LiveNodes(chain) == LiveNodes(old(chain)) + Ids(report) + stuck - (set id | id in report.deleted)
      ensures (Ids(report) + stuck) !! old(chain).contracts.Keys && |stuck| <= 1
      ensures stuck != {} ==> done < |ts| && !Distinct(GatewayNames(ts[done].deployment.workloads))
      ensures ContractsKept(old(chain), chain) && OnHosts(chain, report, ts[..done])
      ensures NamesAtEnd(old(chain), chain, ts, done)
    {
      var contracts, ds, failure;
      contracts, ds, failure, done, stuck := CarryAll(ts);
      report := contracts;
      var ready: bool := *;
      if failure.Some? || !ready {
        GiveUp(ds, contracts);
        return Err(if failure.Some? then failure.value else NotReady), contracts, done, stuck;
      }
      return Ok(contracts), contracts, done, stuck;
    }
  }

  lemma {:induction false} NamesStop(c: Chain, names: seq<string>, n: nat)
    requires Sound(c) && n <= |names| && !NamesCancelled(c, names[..n]).1
    ensures NamesCancelled(c, names) == NamesCancelled(c, names[..n])
    decreases |names| - n
  {
    if n < |names| {
      TakeStep(names, n);
      NamesStop(c, names, n + 1);
    } else {
      TakeAll(names);
    }
  }

  lemma {:induction false} RollbackStops(c: Chain, ds: seq<DeploymentView>, created: seq<CreatedRef>, n: nat)
    requires Sound(c) && n <= |ds| && !RolledBack(c, ds[..n], created).1
    ensures RolledBack(c, ds, created) == RolledBack(c, ds[..n], created)
    decreases |ds| - n
  {
    if n < |ds| {
      TakeStep(ds, n);
      RollbackStops(c, ds, created, n + 1);
    } else {
      TakeAll(ds);
    }
  }
}
