/** What the merged plan asks of each node (`checkNodesCapacity`). */
module Capacity {
  import opened Lists
  import opened Overlay
  import opened Workloads
  import opened VersionMerge
  import opened Planning

  /** Bytes of disk, of solid-state disk and of memory. */
  datatype Resources = Resources(hru: int, sru: int, mru: int)

  function Plus(a: Resources, b: Resources): Resources {
    Resources(a.hru + b.hru, a.sru + b.sru, a.mru + b.mru)
  }

  predicate Within(need: Resources, free: Resources) {
    need.hru <= free.hru && need.sru <= free.sru && need.mru <= free.mru
  }

  function DemandOf(w: Workload): Resources {
    Resources(
      if w.wtype == Zdb then Size(w) else 0,
      if w.wtype == Zmachine || w.wtype == Zmount then Size(w) else 0,
      if w.wtype == Zmachine then Memory(w) else 0)
  }

  function Demand(ws: seq<Workload>): Resources {
    if ws == [] then Resources(0, 0, 0) else Plus(Demand(Front(ws)), DemandOf(Last(ws)))
  }

  function AtVersion(ws: seq<Workload>, version: nat): seq<Workload> {
    if ws == [] then []
    else AtVersion(Front(ws), version) + if Last(ws).version == version then [Last(ws)] else []
  }

  /** The workloads an operation is charged for: all of a deploy, the just changed ones of an update. */
  function Charged(t: TwinView): seq<Workload> {
    match t.operation
    case Deploy => t.deployment.workloads
    case Update => AtVersion(t.deployment.workloads, t.deployment.version)
    case Delete => []
  }

  predicate Fits(free: map<NodeId, Resources>, t: TwinView) {
    Charged(t) != [] ==> t.nodeId in free && Within(Demand(Charged(t)), free[t.nodeId])
  }

  /** What all deploy requests for one node, from however many separate operations, add up to. */
  function Requested(ts: seq<TwinView>, node: NodeId): Resources {
    if ts == [] then Resources(0, 0, 0)
    else
      var t := Last(ts);
      if t.operation == Deploy && t.nodeId == node
      then Plus(Requested(Front(ts), node), Demand(t.deployment.workloads))
      else Requested(Front(ts), node)
  }

  predicate Requests(ts: seq<TwinView>, node: NodeId) {
    exists t :: t in ts && t.operation == Deploy && t.nodeId == node && t.deployment.workloads != []
  }

  lemma DemandStep(ws: seq<Workload>, f: seq<Workload>, w: Workload)
    requires ws != [] && f == Front(ws) && w == Last(ws)
    ensures Demand(ws) == Plus(Demand(f), DemandOf(w))
  {
  }

  lemma PlusAssociates(a: Resources, b: Resources, c: Resources)
    ensures Plus(Plus(a, b), c) == Plus(a, Plus(b, c))
  {
  }

  lemma {:induction false} DemandConcat(a: seq<Workload>, b: seq<Workload>)
    ensures Demand(a + b) == Plus(Demand(a), Demand(b))
  {
    if b == [] {
      assert a + b == a;
    } else {
      var f, l := Front(b), Last(b);
      assert Front(a + b) == a + f && Last(a + b) == l;
      DemandConcat(a, f);
      DemandStep(b, f, l);
      DemandStep(a + b, a + f, l);
      PlusAssociates(Demand(a), Demand(f), DemandOf(l));
    }
  }

  /** The bytes a workload asks for, a machine for its root file system. */
  function Bytes(w: Workload): nat {
    match w.data
    case MachineData(_, _, _, _, rootfs, _, _) => rootfs
    case SizedData(bytes, _) => bytes
    case _ => 0
  }

  function DatabaseBytes(ws: seq<Workload>): nat {
    if ws == [] then 0 else DatabaseBytes(Front(ws)) + if Last(ws).wtype == Zdb then Bytes(Last(ws)) else 0
  }

  function DiskBytes(ws: seq<Workload>): nat {
    if ws == [] then 0
    else DiskBytes(Front(ws))
         + if Last(ws).wtype == Zmachine || Last(ws).wtype == Zmount then Bytes(Last(ws)) else 0
  }

  function MemoryAs(w: Workload): nat {
    if w.wtype == Zmachine && w.data.MachineData? then w.data.memory else 0
  }

  function MemoryBytes(ws: seq<Workload>): nat {
    if ws == [] then 0 else MemoryBytes(Front(ws)) + MemoryAs(Last(ws))
  }

  /** Databases ask for disk, machines and their disks for solid-state disk, and machines for memory. */
  lemma {:induction false} DemandByType(ws: seq<Workload>)
    ensures Demand(ws) == Resources(DatabaseBytes(ws), DiskBytes(ws), MemoryBytes(ws))
  {
    if ws != [] {
      DemandByType(Front(ws));
      DemandByTypeStep(ws, Front(ws), Last(ws));
    }
  }

  lemma DemandByTypeStep(ws: seq<Workload>, f: seq<Workload>, w: Workload)
    requires ws != [] && f == Front(ws) && w == Last(ws)
    requires Demand(f) == Resources(DatabaseBytes(f), DiskBytes(f), MemoryBytes(f))
    ensures Demand(ws) == Resources(DatabaseBytes(ws), DiskBytes(ws), MemoryBytes(ws))
  {
    DemandStep(ws, f, w);
    BytesStep(ws, f, w);
  }

  lemma BytesStep(ws: seq<Workload>, f: seq<Workload>, w: Workload)
    requires ws != [] && f == Front(ws) && w == Last(ws)
    ensures DatabaseBytes(ws) == DatabaseBytes(f) + if w.wtype == Zdb then Bytes(w) else 0
    ensures DiskBytes(ws) == DiskBytes(f) + if w.wtype == Zmachine || w.wtype == Zmount then Bytes(w) else 0
    ensures MemoryBytes(ws) == MemoryBytes(f) + MemoryAs(w)
  {
  }

  lemma WithinByType(ws: seq<Workload>, free: Resources)
    ensures Within(Demand(ws), free) <==>
            DatabaseBytes(ws) <= free.hru && DiskBytes(ws) <= free.sru && MemoryBytes(ws) <= free.mru
  {
    DemandByType(ws);
  }

  /** A deploy is charged for all of its workloads, an update for those at the deployment's own version, a delete for
      none. */
  lemma ChargedIs(t: TwinView, w: Workload)
    ensures w in Charged(t) <==>
            w in t.deployment.workloads && t.operation != Operation.Delete
            && (t.operation == Operation.Update ==> w.version == t.deployment.version)
  {
    InAtVersion(t.deployment.workloads, t.deployment.version, w);
  }

  /** What has something to be charged for fits a known node that has as much free of each kind. */
  lemma FitsIff(free: map<NodeId, Resources>, t: TwinView)
    ensures var ws := Charged(t);
            Fits(free, t) <==>
            ws != [] ==>
              && t.nodeId in free && DatabaseBytes(ws) <= free[t.nodeId].hru
              && DiskBytes(ws) <= free[t.nodeId].sru && MemoryBytes(ws) <= free[t.nodeId].mru
  {
    if t.nodeId in free {
      WithinByType(Charged(t), free[t.nodeId]);
    }
  }

  lemma RequestsStep(ts: seq<TwinView>, node: NodeId)
    requires ts != []
    ensures Requests(ts, node) <==>
            || Requests(Front(ts), node)
            || (Last(ts).operation == Deploy && Last(ts).nodeId == node && Last(ts).deployment.workloads != [])
  {
    assert ts == Front(ts) + [Last(ts)];
  }

  lemma {:induction false} RequestedIsGathered(ts: seq<TwinView>, node: NodeId)
    ensures Demand(Gather(Deploys(ts, node))) == Requested(ts, node)
    ensures Gather(Deploys(ts, node)) != [] <==> Requests(ts, node)
  {
    if ts != [] {
      var t := Last(ts);
      assert ts == Front(ts) + [t];
      RequestedIsGathered(Front(ts), node);
      RequestsStep(ts, node);
      if t.operation == Deploy && t.nodeId == node {
        assert Front(Deploys(ts, node)) == Deploys(Front(ts), node);
        DemandConcat(Gather(Deploys(Front(ts), node)), t.deployment.workloads);
      } else {
        assert Deploys(ts, node) == Deploys(Front(ts), node);
      }
    }
  }

  lemma {:induction false} InAtVersion(ws: seq<Workload>, version: nat, w: Workload)
    ensures w in AtVersion(ws, version) <==> w in ws && w.version == version
  {
    if ws != [] {
      assert ws == Front(ws) + [Last(ws)];
      InAtVersion(Front(ws), version, w);
    }
  }

  lemma DeployFits(ts: seq<TwinView>, free: map<NodeId, Resources>, node: NodeId)
    requires Deploys(ts, node) != []
    ensures Fits(free, Joined(Deploys(ts, node)))
            <==> (Requests(ts, node) ==> node in free && Within(Requested(ts, node), free[node]))
  {
    HasDeploys(ts, node);
    RequestedIsGathered(ts, node);
  }

  /** The check on the merged plan passes exactly if, node by node, everything that was ever requested to be
      deployed there fits together, and every remaining update fits. */
  lemma CapacityIff(ts: seq<TwinView>, nodeOf: map<nat, NodeId>, free: map<NodeId, Resources>)
    ensures (forall t :: t in Merge(ts, nodeOf) ==> Fits(free, t)) <==>
            && (forall node :: Requests(ts, node) ==> node in free && Within(Requested(ts, node), free[node]))
            && (forall u :: u in Without(UpdateMerge(ts, nodeOf), DeletedContracts(ts)) ==> Fits(free, u))
  {
    var ds, us, xs := DeployMerge(ts), Without(UpdateMerge(ts, nodeOf), DeletedContracts(ts)), Deletes(ts);
    assert forall t :: t in Merge(ts, nodeOf) <==> t in ds || t in us || t in xs;
    forall t | t in xs ensures Fits(free, t) {
      InDeletes(ts, t);
    }
    DeploysFitIff(ts, free);
  }

  lemma DeploysFitIff(ts: seq<TwinView>, free: map<NodeId, Resources>)
    ensures (forall t :: t in DeployMerge(ts) ==> Fits(free, t)) <==>
            forall node :: Requests(ts, node) ==> node in free && Within(Requested(ts, node), free[node])
  {
    var ds, nodes := DeployMerge(ts), Ascending(DeployNodes(ts));
    JoinedForEach(ts, nodes);
    if forall t :: t in ds ==> Fits(free, t) {
      forall node | Requests(ts, node) ensures node in free && Within(Requested(ts, node), free[node]) {
        HasDeploys(ts, node);
        assert node in nodes;
        var i :| 0 <= i < |nodes| && nodes[i] == node;
        assert ds[i] in ds;
        DeployFits(ts, free, node);
      }
    }
    if forall node :: Requests(ts, node) ==> node in free && Within(Requested(ts, node), free[node]) {
      forall i | 0 <= i < |ds| ensures Fits(free, ds[i]) {
        DeployFits(ts, free, nodes[i]);
      }
    }
  }

  lemma {:induction false} JoinedForEach(ts: seq<TwinView>, nodes: seq<NodeId>)
    requires forall node :: node in nodes ==> node in DeployNodes(ts)
    ensures |JoinedFor(ts, nodes)| == |nodes|
    ensures forall i :: 0 <= i < |nodes| ==>
              Deploys(ts, nodes[i]) != [] && JoinedFor(ts, nodes)[i] == Joined(Deploys(ts, nodes[i]))
  {
    if nodes != [] {
      assert nodes == Front(nodes) + [Last(nodes)];
      assert Last(nodes) in nodes;
      JoinedForEach(ts, Front(nodes));
      HasDeploys(ts, Last(nodes));
    }
  }

  /** Deploys and updates are checked one by one: a node can pass both and still be overcommitted. */
  lemma DeployAndUpdateAreNotAdded(size: nat)
    requires size > 0
    ensures var disk := Workload("disk", Zmount, 1, "", "", SizedData(size, ""));
            var free := map[3 := Resources(0, size, 0)];
            var d := TwinView(DeploymentView(0, 0, [disk]), Deploy, 0, 3, None);
            var u := TwinView(DeploymentView(1, 9, [disk]), Update, 0, 3, None);
            Fits(free, d) && Fits(free, u) && !Within(Plus(Demand(Charged(d)), Demand(Charged(u))), free[3])
  {
    var disk := Workload("disk", Zmount, 1, "", "", SizedData(size, ""));
    OneWorkload(disk);
  }

  lemma OneWorkload(w: Workload)
    ensures Demand([w]) == DemandOf(w) && AtVersion([w], w.version) == [w]
  {
    var none: seq<Workload> := [];
    assert Front([w]) == none && AtVersion(none, w.version) == none && Demand(none) == Resources(0, 0, 0);
  }

  // ----- What the check means for a node

  /** What all operations on one node are charged together. */
  function Total(ts: seq<TwinView>, node: NodeId): Resources {
    if ts == [] then Resources(0, 0, 0)
    else if Last(ts).nodeId == node then Plus(Total(Front(ts), node), Demand(Charged(Last(ts))))
    else Total(Front(ts), node)
  }

  predicate ChargedOn(ts: seq<TwinView>, node: NodeId) {
    exists t :: t in ts && t.nodeId == node && Charged(t) != []
  }

  predicate AllFit(free: map<NodeId, Resources>, ts: seq<TwinView>) {
    forall t :: t in ts ==> Fits(free, t)
  }

  /** Every node has room for all it is charged. */
  ghost predicate NodesHold(free: map<NodeId, Resources>, ts: seq<TwinView>) {
    forall node :: ChargedOn(ts, node) ==> node in free && Within(Total(ts, node), free[node])
  }

  /** Both ask for some of the same resource. */
  predicate Contend(a: Resources, b: Resources) {
    (a.hru > 0 && b.hru > 0) || (a.sru > 0 && b.sru > 0) || (a.mru > 0 && b.mru > 0)
  }

  predicate Clash(t: TwinView, u: TwinView) {
    t.nodeId == u.nodeId && Contend(Demand(Charged(t)), Demand(Charged(u)))
  }

  /** No two operations on the node ask for the same resource. */
  predicate UncontendedOn(ts: seq<TwinView>, node: NodeId) {
    forall i, j :: 0 <= i < j < |ts| && ts[i].nodeId == node ==> !Clash(ts[i], ts[j])
  }

  predicate Uncontended(ts: seq<TwinView>) {
    forall i, j :: 0 <= i < j < |ts| ==> !Clash(ts[i], ts[j])
  }

  /** Resource by resource the larger of both. */
  function Larger(a: Resources, b: Resources): Resources {
    Resources(if a.hru < b.hru then b.hru else a.hru, if a.sru < b.sru then b.sru else a.sru,
              if a.mru < b.mru then b.mru else a.mru)
  }

  /** The most any one operation on the node is charged. */
  function Most(ts: seq<TwinView>, node: NodeId): Resources {
    if ts == [] then Resources(0, 0, 0)
    else if Last(ts).nodeId == node then Larger(Most(Front(ts), node), Demand(Charged(Last(ts))))
    else Most(Front(ts), node)
  }

  predicate NotNegative(a: Resources) {
    a.hru >= 0 && a.sru >= 0 && a.mru >= 0
  }

  lemma {:induction false} DemandNotNegative(ws: seq<Workload>)
    ensures NotNegative(Demand(ws))
  {
    if ws != [] {
      DemandNotNegative(Front(ws));
    }
  }

  lemma {:induction false} MostIsMost(ts: seq<TwinView>, node: NodeId)
    ensures NotNegative(Most(ts, node)) && Within(Most(ts, node), Total(ts, node))
    ensures forall t :: t in ts && t.nodeId == node ==> Within(Demand(Charged(t)), Most(ts, node))
  {
    if ts != [] {
      assert ts == Front(ts) + [Last(ts)];
      MostIsMost(Front(ts), node);
      DemandNotNegative(Charged(Last(ts)));
    }
  }

  /** Some operation on the node is charged for some of that resource exactly if the most any is charged has some. */
  lemma {:induction false} MostPositive(ts: seq<TwinView>, node: NodeId, d: Resources)
    ensures Contend(Most(ts, node), d) <==>
            exists t :: t in ts && t.nodeId == node && Contend(Demand(Charged(t)), d)
  {
    if ts != [] {
      assert ts == Front(ts) + [Last(ts)];
      MostPositive(Front(ts), node, d);
    }
  }

  lemma UncontendedFront(ts: seq<TwinView>, node: NodeId)
    requires ts != []
    ensures UncontendedOn(ts, node) <==>
            UncontendedOn(Front(ts), node) && forall t :: t in Front(ts) && t.nodeId == node ==> !Clash(t, Last(ts))
  {
    var f, l := Front(ts), Last(ts);
    if UncontendedOn(ts, node) {
      forall t | t in f && t.nodeId == node ensures !Clash(t, l) {
        var i :| 0 <= i < |f| && f[i] == t;
        assert !Clash(ts[i], ts[|ts| - 1]);
      }
      forall i, j | 0 <= i < j < |f| && f[i].nodeId == node ensures !Clash(f[i], f[j]) {
        assert !Clash(ts[i], ts[j]);
      }
    }
    if UncontendedOn(f, node) && forall t :: t in f && t.nodeId == node ==> !Clash(t, l) {
      forall i, j | 0 <= i < j < |ts| && ts[i].nodeId == node ensures !Clash(ts[i], ts[j]) {
        assert ts[i] == f[i] && f[i] in f;
        assert j < |f| ==> ts[j] == f[j];
      }
    }
  }

  /** Adding up comes to no more than the most exactly if nothing on the node contends. */
  lemma {:induction false} TotalIsMostIff(ts: seq<TwinView>, node: NodeId)
    ensures UncontendedOn(ts, node) <==> Total(ts, node) == Most(ts, node)
  {
    if ts != [] {
      var f, d := Front(ts), Demand(Charged(Last(ts)));
      TotalIsMostIff(f, node);
      UncontendedFront(ts, node);
      DemandNotNegative(Charged(Last(ts)));
      MostPositive(f, node, d);
      MostIsMost(f, node);
      LargerIsSumIff(Most(f, node), Total(f, node), d);
    }
  }

  lemma LargerIsSumIff(most: Resources, total: Resources, d: Resources)
    requires NotNegative(most) && NotNegative(d) && Within(most, total)
    ensures Plus(total, d) == Larger(most, d) <==> total == most && !Contend(most, d)
  {
  }

  /** As much as the most, on every node that is charged. */
  function JustEnough(ts: seq<TwinView>): map<NodeId, Resources> {
    map node | node in (set t | t in ts && Charged(t) != [] :: t.nodeId) :: Most(ts, node)
  }

  lemma JustEnoughFits(ts: seq<TwinView>)
    ensures AllFit(JustEnough(ts), ts)
  {
    forall t | t in ts ensures Fits(JustEnough(ts), t) {
      MostIsMost(ts, t.nodeId);
    }
  }

  lemma {:induction false} NotChargedIsNothing(ts: seq<TwinView>, node: NodeId)
    requires !ChargedOn(ts, node)
    ensures Total(ts, node) == Most(ts, node) == Resources(0, 0, 0)
  {
    if ts != [] {
      assert ts == Front(ts) + [Last(ts)];
      NotChargedIsNothing(Front(ts), node);
    }
  }

  /** Operations that pass one by one never ask more of a node than it has, exactly if no two of them on one node
      ask for the same resource. */
  lemma NodesHoldIff(ts: seq<TwinView>)
    ensures (forall free :: AllFit(free, ts) ==> NodesHold(free, ts)) <==> Uncontended(ts)
  {
    if Uncontended(ts) {
      forall free, node | AllFit(free, ts) && ChargedOn(ts, node)
        ensures node in free && Within(Total(ts, node), free[node])
      {
        assert UncontendedOn(ts, node);
        TotalIsMostIff(ts, node);
        MostFits(ts, free, node);
      }
    }
    if forall free :: AllFit(free, ts) ==> NodesHold(free, ts) {
      JustEnoughFits(ts);
      assert NodesHold(JustEnough(ts), ts);
      forall i, j | 0 <= i < j < |ts| ensures !Clash(ts[i], ts[j]) {
        EnoughIsTotal(ts, ts[i].nodeId);
      }
    }
  }

  lemma EnoughIsTotal(ts: seq<TwinView>, node: NodeId)
    requires NodesHold(JustEnough(ts), ts)
    ensures UncontendedOn(ts, node)
  {
    MostIsMost(ts, node);
    TotalIsMostIff(ts, node);
    if !ChargedOn(ts, node) {
      NotChargedIsNothing(ts, node);
    }
  }

  lemma {:induction false} MostFits(ts: seq<TwinView>, free: map<NodeId, Resources>, node: NodeId)
    requires AllFit(free, ts) && ChargedOn(ts, node)
    ensures node in free && Within(Most(ts, node), free[node])
  {
    var f, l := Front(ts), Last(ts);
    assert ts == f + [l] && l in ts && Fits(free, l);
    DemandNotNegative(Charged(l));
    MostIsMost(f, node);
    if ChargedOn(f, node) {
      MostFits(f, free, node);
    } else {
      NotChargedIsNothing(f, node);
    }
  }

  // ----- On a merged plan

  lemma {:induction false} TotalConcat(a: seq<TwinView>, b: seq<TwinView>, node: NodeId)
    ensures Total(a + b, node) == Plus(Total(a, node), Total(b, node))
  {
    if b == [] {
      assert a + b == a;
    } else {
      assert Front(a + b) == a + Front(b) && Last(a + b) == Last(b);
      TotalConcat(a, Front(b), node);
    }
  }

  lemma {:induction false} DeletesCostNothing(ts: seq<TwinView>, node: NodeId)
    requires forall t :: t in ts ==> t.operation == Delete
    ensures Total(ts, node) == Resources(0, 0, 0)
  {
    if ts != [] {
      assert ts == Front(ts) + [Last(ts)];
      DeletesCostNothing(Front(ts), node);
    }
  }

  /** One deploy per node is charged what was requested for that node. */
  lemma {:induction false} TotalOfJoined(ts: seq<TwinView>, nodes: seq<NodeId>, node: NodeId)
    requires Distinct(nodes) && forall n :: n in nodes ==> n in DeployNodes(ts)
    ensures Total(JoinedFor(ts, nodes), node) == if node in nodes then Requested(ts, node) else Resources(0, 0, 0)
  {
    if nodes != [] {
      var f, l := Front(nodes), Last(nodes);
      assert nodes == f + [l] && l in nodes;
      DistinctFront(nodes);
      TotalOfJoined(ts, f, node);
      HasDeploys(ts, l);
      RequestedIsGathered(ts, l);
      var j := Joined(Deploys(ts, l));
      assert JoinedFor(ts, nodes) == JoinedFor(ts, f) + [j];
      LastCharged(JoinedFor(ts, f), j, node);
      assert Charged(j) == Gather(Deploys(ts, l));
    }
  }

  lemma LastCharged(ts: seq<TwinView>, t: TwinView, node: NodeId)
    ensures Total(ts + [t], node)
            == if t.nodeId == node then Plus(Total(ts, node), Demand(Charged(t))) else Total(ts, node)
  {
    assert Front(ts + [t]) == ts && Last(ts + [t]) == t;
  }

  /** What the merged plan is charged on a node: all that was requested there, and the updates that are left. */
  lemma TotalOfMerge(ts: seq<TwinView>, nodeOf: map<nat, NodeId>, node: NodeId)
    ensures Total(Merge(ts, nodeOf), node)
            == Plus(Requested(ts, node), Total(Without(UpdateMerge(ts, nodeOf), DeletedContracts(ts)), node))
  {
    var ds, us, xs := DeployMerge(ts), Without(UpdateMerge(ts, nodeOf), DeletedContracts(ts)), Deletes(ts);
    TotalConcat(ds + us, xs, node);
    TotalConcat(ds, us, node);
    forall t | t in xs ensures t.operation == Delete {
      InDeletes(ts, t);
    }
    DeletesCostNothing(xs, node);
    TotalOfJoined(ts, Ascending(DeployNodes(ts)), node);
    if node !in DeployNodes(ts) {
      HasDeploys(ts, node);
      RequestedIsGathered(ts, node);
    }
  }

  /** Neither two updates on one node, nor an update and what is requested there, ask for the same resource. */
  predicate NothingContends(ts: seq<TwinView>, us: seq<TwinView>) {
    Uncontended(us) && forall u :: u in us ==> !Contend(Requested(ts, u.nodeId), Demand(Charged(u)))
  }

  /** A merged plan that passes the check never asks more of a node than it has, exactly if on no node two of the
      updates, or an update and the deploys, ask for the same resource. */
  lemma MergedPlanHoldsIff(ts: seq<TwinView>, nodeOf: map<nat, NodeId>)
    ensures (forall free :: AllFit(free, Merge(ts, nodeOf)) ==> NodesHold(free, Merge(ts, nodeOf))) <==>
            NothingContends(ts, Without(UpdateMerge(ts, nodeOf), DeletedContracts(ts)))
  {
    var ds, us, xs := DeployMerge(ts), Without(UpdateMerge(ts, nodeOf), DeletedContracts(ts)), Deletes(ts);
    NodesHoldIff(Merge(ts, nodeOf));
    forall t | t in xs ensures t.operation == Delete {
      InDeletes(ts, t);
    }
    DeploysClash(ts, us);
    UncontendedInThree(ds, us, xs);
  }

  /** The deploys of a merged plan clash with none of each other, and with an update exactly if what is requested
      contends with it. */
  lemma DeploysClash(ts: seq<TwinView>, us: seq<TwinView>)
    ensures Uncontended(DeployMerge(ts))
    ensures (forall d, u :: d in DeployMerge(ts) && u in us ==> !Clash(d, u)) <==>
            forall u :: u in us ==> !Contend(Requested(ts, u.nodeId), Demand(Charged(u)))
  {
    var ds, nodes := DeployMerge(ts), Ascending(DeployNodes(ts));
    JoinedForEach(ts, nodes);
    forall i | 0 <= i < |ds| ensures ds[i].nodeId == nodes[i] && Demand(Charged(ds[i])) == Requested(ts, nodes[i]) {
      HasDeploys(ts, nodes[i]);
      RequestedIsGathered(ts, nodes[i]);
    }
    forall u | u in us && Contend(Requested(ts, u.nodeId), Demand(Charged(u)))
      ensures exists d :: d in ds && Clash(d, u)
    {
      RequestedIsGathered(ts, u.nodeId);
      HasDeploys(ts, u.nodeId);
      assert u.nodeId in nodes;
      var i :| 0 <= i < |nodes| && nodes[i] == u.nodeId;
      assert ds[i] in ds && Clash(ds[i], u);
    }
  }

  lemma UncontendedInThree(ds: seq<TwinView>, us: seq<TwinView>, xs: seq<TwinView>)
    requires Uncontended(ds) && forall x :: x in xs ==> x.operation == Delete
    ensures Uncontended(ds + us + xs) <==>
            Uncontended(us) && forall d, u :: d in ds && u in us ==> !Clash(d, u)
  {
    var ts, n, m := ds + us + xs, |ds|, |ds| + |us|;
    if Uncontended(ts) {
      forall i, j | 0 <= i < j < |us| ensures !Clash(us[i], us[j]) {
        assert !Clash(ts[n + i], ts[n + j]);
      }
      forall d, u | d in ds && u in us ensures !Clash(d, u) {
        var i :| 0 <= i < n && ds[i] == d;
        var j :| 0 <= j < |us| && us[j] == u;
        assert !Clash(ts[i], ts[n + j]);
      }
    }
    if Uncontended(us) && forall d, u :: d in ds && u in us ==> !Clash(d, u) {
      forall i, j | 0 <= i < j < |ts| ensures !Clash(ts[i], ts[j]) {
        if j >= m {
          assert ts[j] == xs[j - m] && xs[j - m] in xs;
        } else if j < n {
          assert ts[i] == ds[i] && ts[j] == ds[j];
        } else if i < n {
          assert ts[i] == ds[i] && ts[j] == us[j - n] && ds[i] in ds && us[j - n] in us;
        } else {
          assert ts[i] == us[i - n] && ts[j] == us[j - n];
        }
      }
    }
  }

  lemma AscendingOne(x: nat)
    ensures Ascending({x}) == [x]
  {
    var r := Ascending({x});
    DistinctCardinality(r);
    assert (set k | k in r) == {x};
    assert r[0] in r;
  }

  lemma MergeOfTwo(d: TwinView, u: TwinView, nodeOf: map<nat, NodeId>)
    requires d.operation == Deploy && u.operation == Update && u.deployment.contractId in nodeOf
    ensures Merge([d, u], nodeOf) == [d, UpdateToLatest([u.(nodeId := nodeOf[u.deployment.contractId])])]
  {
    DeployMergeOfTwo(d, u);
    UpdateMergeOfTwo(d, u, nodeOf);
    var none, merged: seq<TwinView> := [], UpdateMerge([d, u], nodeOf);
    assert DeletedContracts([d, u]) == {} && Front(merged) == none && Without(merged, {}) == merged;
    assert Front([d, u]) == [d] && Front([d]) == none && Deletes([d]) == none && Deletes([d, u]) == none;
  }

  lemma DeployMergeOfTwo(d: TwinView, u: TwinView)
    requires d.operation == Deploy && u.operation == Update
    ensures DeployMerge([d, u]) == [d]
  {
    var noNode: seq<NodeId>, none: seq<TwinView> := [], [];
    DeploysOfTwo(d, u);
    AscendingOne(d.nodeId);
    assert Front([d.nodeId]) == noNode && JoinedFor([d, u], noNode) == none;
  }

  lemma UpdateMergeOfTwo(d: TwinView, u: TwinView, nodeOf: map<nat, NodeId>)
    requires d.operation == Deploy && u.operation == Update && u.deployment.contractId in nodeOf
    ensures UpdateMerge([d, u], nodeOf) == [UpdateToLatest([u.(nodeId := nodeOf[u.deployment.contractId])])]
  {
    var c, noContract: seq<nat>, none: seq<TwinView> := u.deployment.contractId, [], [];
    UpdatesOfTwo(d, u);
    AscendingOne(c);
    assert Front([c]) == noContract && UpdatedFor([d, u], nodeOf, noContract) == none;
    assert Located([u], nodeOf[c]) == [u.(nodeId := nodeOf[c])];
  }

  lemma DeploysOfTwo(d: TwinView, u: TwinView)
    requires d.operation == Deploy && u.operation == Update
    ensures DeployNodes([d, u]) == {d.nodeId} && Deploys([d, u], d.nodeId) == [d] && Joined([d]) == d
  {
    var none: seq<TwinView> := [];
    assert d in [d, u];
    assert Front([d, u]) == [d] && Front([d]) == none && Deploys([d], d.nodeId) == [d];
    OneUpdate(d);
  }

  lemma UpdatesOfTwo(d: TwinView, u: TwinView)
    requires d.operation == Deploy && u.operation == Update
    ensures UpdateContracts([d, u]) == {u.deployment.contractId} && Updates([d, u], u.deployment.contractId) == [u]
  {
    var none: seq<TwinView> := [];
    assert u in [d, u];
    assert Front([d, u]) == [d] && Front([d]) == none && Updates([d], u.deployment.contractId) == none;
  }

  /** A new disk, and one that just grew in a deployment of the same node: either fits, and the plan passes. */
  lemma MergedPlanOvercommits(size: nat)
    requires size > 0
    ensures var disk := Workload("disk", Zmount, 0, "", "", SizedData(size, ""));
            var d := TwinView(DeploymentView(0, 0, [disk]), Deploy, 0, 3, None);
            var u := TwinView(DeploymentView(0, 9, [disk.(version := 1)]), Update, 0, 0, None);
            var plan, free := Merge([d, u], map[9 := 3]), map[3 := Resources(0, size, 0)];
            AllFit(free, plan) && !NodesHold(free, plan)
  {
    var disk := Workload("disk", Zmount, 0, "", "", SizedData(size, ""));
    var d := TwinView(DeploymentView(0, 0, [disk]), Deploy, 0, 3, None);
    var u := TwinView(DeploymentView(0, 9, [disk.(version := 1)]), Update, 0, 0, None);
    MergeOfTwo(d, u, map[9 := 3]);
    OneWorkload(disk);
    OneWorkload(disk.(version := 1));
    var merged := UpdateToLatest([u.(nodeId := 3)]);
    assert Charged(d) == [disk] && Charged(merged) == [disk.(version := 1)];
    assert [d] + [merged] == [d, merged];
    TotalOfTwo(d, merged);
    assert d in [d, merged] && ChargedOn([d, merged], 3);
  }

  lemma TotalOfOne(t: TwinView)
    ensures Total([t], t.nodeId) == Demand(Charged(t))
  {
    var none: seq<TwinView> := [];
    assert Front([t]) == none && Total(none, t.nodeId) == Resources(0, 0, 0);
  }

  lemma TotalOfTwo(t: TwinView, u: TwinView)
    requires t.nodeId == u.nodeId
    ensures Total([t] + [u], u.nodeId) == Plus(Demand(Charged(t)), Demand(Charged(u)))
  {
    TotalOfOne(t);
    LastCharged([t], u, u.nodeId);
  }
}
