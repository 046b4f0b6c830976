/** What creating a machine does to its network (`VMHL.create`). */
module Machines {
  import opened Lists
  import opened Overlay
  import opened Allocation
  import opened Decode
  import opened Workloads
  import opened Networks

  /** A requested machine; `parts` are the disks and the public address created along with it. */
  datatype MachineSpec = MachineSpec(
    name: string, nodeId: NodeId, parts: seq<Workload>, publicIps: nat, publicIp: string, mounts: seq<string>,
    rootfs: nat, memory: nat, metadata: string, description: string, rest: string)

  datatype CreateError = Refused(error: NetError) | NoIpv4AccessNode

  /** The secrets and ports drawn for whatever has to be added on the way. */
  datatype Draws = Draws(nodeKey: PrivateKey, nodePort: nat, accessKey: PrivateKey, accessPort: nat,
                         userKey: PrivateKey)

  function SubnetOf(ip: Ip): Subnet {
    ip / 256
  }

  // ----- Workloads

  predicate InRange(w: Workload) {
    w.wtype == NetworkResource && w.data.NetworkData? && 0 <= w.data.subnet < 256
  }

  function FirstInRange(ws: seq<Workload>): (i: nat)
    ensures i <= |ws| && (i < |ws| ==> InRange(ws[i])) && forall k :: 0 <= k < i ==> !InRange(ws[k])
  {
    if ws == [] then 0 else if InRange(ws[0]) then 0 else 1 + FirstInRange(ws[1..])
  }

  function ViewIndex(views: seq<NetView>, subnet: Subnet): (i: nat)
    ensures i <= |views| && (i < |views| ==> views[i].site.subnet == subnet)
    ensures forall k :: 0 <= k < i ==> views[k].site.subnet != subnet
  {
    if views == [] then 0 else if views[0].site.subnet == subnet then 0 else 1 + ViewIndex(views[1..], subnet)
  }

  /** The table a network has for a subnet. */
  function TableIn(views: seq<NetView>, subnet: Subnet): Data {
    var i := ViewIndex(views, subnet);
    if i < |views| then NetworkData(subnet, views[i].peers) else OtherData("")
  }

  /** A published deployment with its network workload renewed, one version further. */
  function Renewed(views: seq<NetView>, ws: seq<Workload>): seq<Workload> {
    var i := FirstInRange(ws);
    if i < |ws| then ws[i := ws[i].(version := ws[i].version + 1, data := TableIn(views, ws[i].data.subnet))] else ws
  }

  function Renewals(views: seq<NetView>, published: seq<DeploymentView>, network: string): seq<TwinView> {
    seq(|published|, i requires 0 <= i < |published| =>
      TwinView(published[i].(workloads := Renewed(views, published[i].workloads)), Operation.Update, 0, 0,
               Some(network)))
  }

  function NetworkWorkload(network: string, spec: MachineSpec, table: Data): Workload {
    Workload(network, NetworkResource, 0, spec.metadata, spec.description, table)
  }

  function MachineWorkload(network: string, spec: MachineSpec, ip: Ip): Workload {
    Workload(spec.name, Zmachine, 0, spec.metadata, spec.description,
             MachineData(network, ip, spec.publicIp, spec.mounts, spec.rootfs, spec.memory, spec.rest))
  }

  function TableOf(znet: Znet?): Option<Data>
    reads if znet == null then {} else {znet}
  {
    if znet == null then None else Some(NetworkData(znet.site.subnet, znet.peers))
  }

  /** The planned operations: the stored network's deployments renewed if a member was added, a new deployment for
      the foreign access node, and one for the machine, with the network's workload if its node is new. */
  function Operations(views: seq<NetView>, spec: MachineSpec, own: Option<Data>, access: Option<Data>,
                      accessId: Option<NodeId>,
                      address: Ip, stored: bool, published: seq<DeploymentView>, network: string): seq<TwinView> {
    (if stored && (own.Some? || access.Some?) then Renewals(views, published, network) else [])
    + (if access.Some? && accessId.Some?
       then [TwinView(DeploymentView(0, 0, [NetworkWorkload(network, spec, access.value)]), Operation.Deploy, 0,
                      accessId.value, Some(network))]
       else [])
    + [TwinView(DeploymentView(0, 0, spec.parts
                                     + (if own.Some? then [NetworkWorkload(network, spec, own.value)] else [])
                                     + [MachineWorkload(network, spec, address)]),
                Operation.Deploy, spec.publicIps, spec.nodeId, Some(network))]
  }

  // ----- What the planned operations say

  /** The workload is the machine asked for, at the address it was given. */
  predicate IsMachineAsked(w: Workload, spec: MachineSpec, address: Ip, network: string) {
    && w.wtype == Zmachine && w.name == spec.name && w.version == 0
    && w.metadata == spec.metadata && w.description == spec.description
    && w.data.MachineData? && w.data.network == network && w.data.ip == address
    && w.data.publicIp == spec.publicIp && w.data.mounts == spec.mounts
    && w.data.rootfs == spec.rootfs && w.data.memory == spec.memory && w.data.rest == spec.rest
  }

  /** The workload is the network's, with the table that node `id` has in it now. */
  predicate ShowsNode(w: Workload, views: seq<NetView>, id: NodeId, spec: MachineSpec, network: string) {
    && w.wtype == NetworkResource && w.name == network && w.version == 0
    && w.metadata == spec.metadata && w.description == spec.description && w.data.NetworkData?
    && exists v :: v in views && v.site.nodeId == id && w.data.subnet == v.site.subnet && w.data.peers == v.peers
  }

  /** A deployment of the machine's parts, of the network if the node is new to it, and of the machine. */
  predicate DeploysMachine(op: TwinView, views: seq<NetView>, spec: MachineSpec, joined: bool, address: Ip,
                           network: string) {
    && op.operation == Operation.Deploy && op.nodeId == spec.nodeId && op.publicIps == spec.publicIps
    && op.network == Some(network) && op.deployment.version == 0 && op.deployment.contractId == 0
    && var ws, n := op.deployment.workloads, |spec.parts|;
       && |ws| == n + (if joined then 2 else 1) && ws[..n] == spec.parts
       && (joined ==> ShowsNode(ws[n], views, spec.nodeId, spec, network))
       && IsMachineAsked(ws[|ws| - 1], spec, address, network)
  }

  /** A deployment of the network alone, on the access node. */
  predicate DeploysAccess(op: TwinView, views: seq<NetView>, spec: MachineSpec, accessId: NodeId, network: string) {
    && op.operation == Operation.Deploy && op.nodeId == accessId && op.publicIps == 0
    && op.network == Some(network) && op.deployment.version == 0 && op.deployment.contractId == 0
    && |op.deployment.workloads| == 1 && ShowsNode(op.deployment.workloads[0], views, accessId, spec, network)
  }

  /** The first table the network has for a subnet, or nothing of the kind without one. */
  predicate ShowsSubnet(data: Data, views: seq<NetView>, subnet: Subnet) {
    if forall v :: v in views ==> v.site.subnet != subnet then data == OtherData("")
    else exists i :: 0 <= i < |views| && views[i].site.subnet == subnet && data == NetworkData(subnet, views[i].peers)
                     && forall k :: 0 <= k < i ==> views[k].site.subnet != subnet
  }

  /** The workload is a network's, with a subnet of the network's /16. */
  predicate ShowsRange(w: Workload) {
    w.wtype == NetworkResource && w.data.NetworkData? && w.data.subnet >= 0 && w.data.subnet <= 255
  }

  /** Of the old workloads only the first network one in range changes: one version on, with its table as it is now. */
  predicate RenewsAt(was: seq<Workload>, now: seq<Workload>, views: seq<NetView>, j: nat)
    requires |was| == |now| && j < |was|
  {
    if ShowsRange(was[j]) && forall k :: 0 <= k < j ==> !ShowsRange(was[k])
    then now[j] == was[j].(version := was[j].version + 1, data := now[j].data)
         && ShowsSubnet(now[j].data, views, was[j].data.subnet)
    else now[j] == was[j]
  }

  ghost predicate RenewsDeployment(op: TwinView, d: DeploymentView, views: seq<NetView>, network: string) {
    && op.operation == Operation.Update && op.network == Some(network)
    && op.deployment == d.(workloads := op.deployment.workloads) && |op.deployment.workloads| == |d.workloads|
    && forall j :: 0 <= j < |d.workloads| ==> RenewsAt(d.workloads, op.deployment.workloads, views, j)
  }

  /** Every published deployment is renewed if the network was stored and anybody joined, the access node gets its
      deployment if one was added, and the machine gets its own. */
  ghost predicate Planned(ops: seq<TwinView>, views: seq<NetView>, spec: MachineSpec, joined: bool,
                          accessId: Option<NodeId>, address: Ip, stored: bool, published: seq<DeploymentView>,
                          network: string) {
    var n := if stored && (joined || accessId.Some?) then |published| else 0;
    && |ops| == n + (if accessId.Some? then 2 else 1)
    && (forall i :: 0 <= i < n ==> RenewsDeployment(ops[i], published[i], views, network))
    && (accessId.Some? ==> DeploysAccess(ops[n], views, spec, accessId.value, network))
    && DeploysMachine(ops[|ops| - 1], views, spec, joined, address, network)
  }

  lemma RenewedIsRenewal(views: seq<NetView>, d: DeploymentView, network: string)
    ensures RenewsDeployment(TwinView(d.(workloads := Renewed(views, d.workloads)), Operation.Update, 0, 0,
                                      Some(network)), d, views, network)
  {
    var i := FirstInRange(d.workloads);
    if i < |d.workloads| {
      var subnet := d.workloads[i].data.subnet;
      var k := ViewIndex(views, subnet);
      assert k < |views| ==> views[k] in views;
      assert ShowsSubnet(TableIn(views, subnet), views, subnet);
    }
  }

  /** A view of that node carries the data. */
  predicate IsTable(table: Option<Data>, views: seq<NetView>, id: NodeId) {
    table.Some? ==> exists v :: v in views && v.site.nodeId == id && table.value == NetworkData(v.site.subnet, v.peers)
  }

  lemma OperationsAsPlanned(views: seq<NetView>, spec: MachineSpec, own: Option<Data>, access: Option<Data>,
                            accessId: Option<NodeId>, address: Ip, stored: bool, published: seq<DeploymentView>,
                            network: string)
    requires IsTable(own, views, spec.nodeId) && (access.Some? <==> accessId.Some?)
    requires accessId.Some? ==> IsTable(access, views, accessId.value)
    ensures Planned(Operations(views, spec, own, access, accessId, address, stored, published, network),
                    views, spec, own.Some?, accessId, address, stored, published, network)
  {
    forall i | 0 <= i < |published|
      ensures RenewsDeployment(Renewals(views, published, network)[i], published[i], views, network)
    {
      RenewedIsRenewal(views, published[i], network);
    }
    var op := Last(Operations(views, spec, own, access, accessId, address, stored, published, network));
    assert op.deployment.workloads[..|spec.parts|] == spec.parts;
  }

  // ----- What the steps on the way do

  /** `t` is `s` with members `ids` added, nobody's addresses touched. */
  ghost predicate Joined(s: NetState, t: NetState, ids: set<NodeId>) {
    && Consistent(t) && s.sites <= t.sites
    && (forall x :: HasSite(t.sites, x) <==> HasSite(s.sites, x) || x in ids)
    && (forall x :: NodeIps(t.nodes, x) == NodeIps(s.nodes, x))
  }

  /** A subnet set aside: reserved, and not in use by anyone yet. */
  predicate Held(s: NetState, subnet: Option<Subnet>) {
    subnet.Some? ==> subnet.value in s.reserved && subnet.value !in UsedSubnets(s)
  }

  lemma {:induction false} NewMemberIndex(nodes: seq<NodeView>, node: NodeView, x: NodeId)
    requires node.reservedIps == []
    ensures NodeIps(nodes + [node], x) == NodeIps(nodes, x)
  {
    if nodes == [] {
      assert (nodes + [node])[1..] == [];
    } else {
      assert (nodes + [node])[1..] == nodes[1..] + [node];
      NewMemberIndex(nodes[1..], node, x);
    }
  }

  lemma {:induction false} PrefixSubnet(sites: seq<Site>, more: seq<Site>, x: NodeId)
    requires sites <= more && HasSite(sites, x)
    ensures NodeSubnet(more, x) == NodeSubnet(sites, x)
  {
    var i := SiteIndex(sites, x);
    var s :| s in sites && s.nodeId == x;
    assert forall j :: 0 <= j < |sites| ==> more[j] == sites[j];
    assert SiteIndex(more, x) == i;
  }

  lemma JoinedByNode(s: NetState, op: Op, t: NetState, id: NodeId)
    requires Consistent(s) && Steps(s, op, t) && Legal(s, op) && !HasSite(s.sites, id)
    requires (op.AddNode? || op.AddNodeAt?) && op.id == id
    ensures Joined(s, t, {id}) && t.accessPoints == s.accessPoints && s.reserved <= t.reserved
    ensures forall x :: x in UsedSubnets(t) <==>
            x in UsedSubnets(s) || x == (if op.AddNode? then FreeSubnet(s) else op.subnet)
  {
    StepKeepsIff(s, op, t);
    UsedAreReserved(s);
    var site := Last(t.sites);
    assert t.sites == s.sites + [site] && site in t.sites;
    assert SiteSubnets(t.sites) == SiteSubnets(s.sites) + [site.subnet];
    forall x ensures NodeIps(t.nodes, x) == NodeIps(s.nodes, x) {
      NewMemberIndex(s.nodes, NodeView(id, 0, []), x);
    }
    forall x ensures HasSite(t.sites, x) <==> HasSite(s.sites, x) || x == id {
      if m :| m in s.sites && m.nodeId == x { assert m in t.sites; }
    }
  }

  lemma JoinedByAccess(s: NetState, id: NodeId, key: PublicKey, t: NetState)
    requires Consistent(s) && Steps(s, Op.AddAccess(id, key), t) && HasSite(s.sites, id)
    ensures Joined(s, t, {}) && s.reserved <= t.reserved
    ensures t.accessPoints == s.accessPoints + [AccessPoint(FreeSubnet(s), key, id)]
    ensures forall x :: x in UsedSubnets(t) <==> x in UsedSubnets(s) || x == FreeSubnet(s)
  {
    StepKeepsIff(s, Op.AddAccess(id, key), t);
    UsedAreReserved(s);
    assert PointSubnets(t.accessPoints) == PointSubnets(s.accessPoints) + [FreeSubnet(s)];
  }

  lemma JoinedTrans(s: NetState, t: NetState, u: NetState, a: set<NodeId>, b: set<NodeId>)
    requires Joined(s, t, a) && Joined(t, u, b)
    ensures Joined(s, u, a + b)
  {
  }

  // ----- Setting subnets aside

  function OwnSubnet(ip: Option<Ip>): Option<Subnet> {
    if ip.None? then None else Some(SubnetOf(ip.value))
  }

  function AccessSubnet(s: NetState, ip: Option<Ip>): Option<Subnet> {
    if ip.None? then None else Some(FreeSubnet(Apply(s, ClaimSubnet(SubnetOf(ip.value)))))
  }

  function SetAside(s: NetState, ip: Option<Ip>): NetState {
    if ip.None? then s else Apply(Apply(s, ClaimSubnet(SubnetOf(ip.value))), TakeSubnet)
  }

  lemma AsideHolds(s: NetState, subnet: Subnet)
    requires Consistent(s) && subnet !in Reserved(s)
    ensures var t := WithReserved(s, subnet);
            && Joined(s, t, {}) && UsedSubnets(t) == UsedSubnets(s)
            && Held(t, Some(subnet)) && subnet !in s.reserved
            && forall x :: Held(s, Some(x)) ==> Held(t, Some(x))
  {
    UsedAreReserved(s);
    WithReservedConsistent(s, subnet);
    assert UsedSubnets(WithReserved(s, subnet)) == UsedSubnets(s);
  }

  lemma SetAsideHolds(s: NetState, ip: Option<Ip>)
    requires Consistent(s) && (ip.Some? ==> SubnetOf(ip.value) !in Reserved(s))
    ensures var t := SetAside(s, ip);
            && Joined(s, t, {}) && t.nodes == s.nodes && t.sites == s.sites && t.accessPoints == s.accessPoints
            && Held(t, OwnSubnet(ip)) && Held(t, AccessSubnet(s, ip))
            && (ip.Some? ==> OwnSubnet(ip) != AccessSubnet(s, ip))
  {
    if ip.Some? {
      var mid := WithReserved(s, SubnetOf(ip.value));
      AsideHolds(s, SubnetOf(ip.value));
      FreeSubnetIsFree(mid);
      AsideHolds(mid, FreeSubnet(mid));
    }
  }

  // ----- Adding members

  /** Subnets set aside stay so, except the one taken. */
  ghost predicate HeldBut(s: NetState, t: NetState, taken: Option<Subnet>) {
    forall x :: Held(s, Some(x)) && Some(x) != taken ==> Held(t, Some(x))
  }

  lemma HeldStays(s: NetState, t: NetState, subnet: Option<Subnet>, taken: Option<Subnet>)
    requires HeldBut(s, t, taken) && Held(s, subnet) && (subnet.Some? ==> subnet != taken)
    ensures Held(t, subnet)
  {
    match subnet
    case None =>
    case Some(x) => assert Held(s, Some(x));
  }

  /** Nothing but reserved subnets was added. */
  ghost predicate Aside(s: NetState, t: NetState) {
    Joined(s, t, {}) && t.sites == s.sites && t.accessPoints == s.accessPoints
  }

  lemma JoinedAfterAside(s: NetState, aside: NetState, t: NetState, ids: set<NodeId>)
    requires Joined(s, aside, {}) && Joined(aside, t, ids)
    ensures Joined(s, t, ids)
  {
    JoinedTrans(s, aside, t, {}, ids);
    assert {} + ids == ids;
  }

  /** A member joins on a free subnet or on one set aside. */
  lemma NodeJoins(s: NetState, t: NetState, id: NodeId, subnet: Option<Subnet>, key: PrivateKey, port: nat)
    requires Consistent(s) && Held(s, subnet) && !HasSite(s.sites, id) && Steps(s, NodeOp(id, subnet, key, port), t)
    ensures Joined(s, t, {id}) && HeldBut(s, t, subnet)
  {
    JoinedByNode(s, NodeOp(id, subnet, key, port), t, id);
    StillHeld(s, t, NewSubnet(s, subnet), subnet);
  }

  lemma StillHeld(s: NetState, t: NetState, used: Subnet, taken: Option<Subnet>)
    requires s.reserved <= t.reserved && (used == FreeSubnet(s) || Some(used) == taken)
    requires forall x :: x in UsedSubnets(t) <==> x in UsedSubnets(s) || x == used
    ensures HeldBut(s, t, taken)
  {
    UsedAreReserved(s);
    FreeSubnetIsFree(s);
    forall x | Held(s, Some(x)) && Some(x) != taken ensures Held(t, Some(x)) {
      assert x in s.reserved && x in t.reserved;
    }
  }

  lemma NewSite(s: NetState, t: NetState, id: NodeId, subnet: Option<Subnet>, key: PrivateKey, port: nat)
    requires !HasSite(s.sites, id) && Steps(s, NodeOp(id, subnet, key, port), t)
    ensures t.sites == s.sites + [Site(id, NewSubnet(s, subnet), key, port)]
  {
  }

  /** In a network in order, a table with a member's subnet is that member's. */
  lemma TableOfMember(net: Network, znet: Znet, site: Site)
    requires Consistent(net.State()) && znet in net.networks && site in net.Sites() && znet.site.subnet == site.subnet
    ensures znet.site == site
  {
    var s := net.State();
    var i :| 0 <= i < |net.networks| && net.networks[i] == znet;
    var j :| 0 <= j < |s.sites| && s.sites[j] == site;
    assert s.sites[i] == znet.site;
    assert UsedSubnets(s)[i] == s.sites[i].subnet && UsedSubnets(s)[j] == s.sites[j].subnet;
  }

  /** One more access point, on member `id`, for the holder of `key`. */
  ghost predicate Gained(before: seq<AccessPoint>, after: seq<AccessPoint>, id: NodeId, key: PublicKey) {
    exists subnet :: after == before + [AccessPoint(subnet, key, id)]
  }

  lemma AccessJoins(s: NetState, t: NetState, id: NodeId, key: PublicKey)
    requires Consistent(s) && HasSite(s.sites, id) && Steps(s, Op.AddAccess(id, key), t)
    ensures Joined(s, t, {}) && Gained(s.accessPoints, t.accessPoints, id, key) && HeldBut(s, t, None)
  {
    UsedAreReserved(s);
    FreeSubnetIsFree(s);
    JoinedByAccess(s, id, key, t);
  }

  /** Whether some access node of the grid is a member already. */
  ghost predicate HasAccessMember(net: Network)
    reads net`networks
  {
    exists id :: id in net.gridAccess && HasSite(net.Sites(), id)
  }

  /** Some access node of the grid can be reached over IPv4. */
  predicate OffersIpv4(gridAccess: map<NodeId, AccessConfig>) {
    exists a :: a in gridAccess && gridAccess[a].ipv4
  }

  /** The members can be added: through a foreign access node if one is there to be drawn; otherwise the own node
      unless it is a member, provided that peers can be generated and that it gives what access it is to give. */
  ghost predicate Admits(net: Network, nodeId: NodeId, foreign: bool, direct: bool)
    reads net`networks, net`accessNodes
  {
    if foreign then OffersIpv4(net.gridAccess)
    else HasSite(net.Sites(), nodeId)
         || (!net.UnmeshableWith(nodeId) && (direct ==> nodeId in net.gridAccess && net.gridAccess[nodeId].ipv4))
  }

  /** A subnet of the caller's choice is free. */
  ghost predicate SubnetFree(s: NetState, ip: Option<Ip>) {
    ip.Some? ==> SubnetOf(ip.value) !in Reserved(s)
  }

  /** Whether a foreign access node has to be added. */
  ghost predicate NeedsForeign(net: Network, nodeId: NodeId, addAccess: bool)
    reads net`networks
  {
    addAccess && nodeId !in net.gridAccess && !HasAccessMember(net)
  }

  /** When a creation goes through. */
  ghost predicate Creatable(net: Network, nodeId: NodeId, addAccess: bool, ip: Option<Ip>, stored: bool)
    reads net, net.nodes
  {
    && SubnetFree(net.State(), ip) && (ip.Some? ==> !HasSite(net.Sites(), nodeId))
    && Admits(net, nodeId, NeedsForeign(net, nodeId, addAccess), GrantsAccess(net, nodeId, addAccess, stored))
  }

  /** An added member has the subnet that was set aside for it. */
  predicate Seated(znet: Znet?, subnet: Option<Subnet>) {
    znet != null && subnet.Some? ==> znet.site.subnet == subnet.value
  }

  lemma SeatedAt(net: Network, znet: Znet)
    requires net.Valid() && znet in net.networks
    ensures NodeSubnet(net.Sites(), znet.site.nodeId) == Some(znet.site.subnet)
  {
    var k :| 0 <= k < |net.networks| && net.networks[k] == znet;
    assert net.Sites()[k] == znet.site;
    assert SiteIndex(net.Sites(), znet.site.nodeId) == k;
  }

  /** Node `id` became a member, with table `znet` among tables that follow `plan`. */
  ghost predicate Entered(net: Network, was: NetState, znet: Znet, id: NodeId, subnet: Option<Subnet>, plan: Plan)
    reads net, net.nodes, net.networks
  {
    && Joined(was, net.State(), {id}) && HeldBut(was, net.State(), subnet) && net.Matches(plan)
    && znet in net.networks && znet.site.nodeId == id && Seated(znet, subnet)
  }

  lemma StillEntered(net: Network, was: NetState, mid: NetState, znet: Znet, id: NodeId, subnet: Option<Subnet>,
                     plan: Plan)
    requires Joined(was, mid, {id}) && Joined(mid, net.State(), {}) && net.Matches(plan)
    requires HeldBut(was, mid, subnet) && HeldBut(mid, net.State(), None)
    requires znet in net.networks && znet.site.nodeId == id && Seated(znet, subnet)
    ensures Entered(net, was, znet, id, subnet, plan)
  {
    JoinedTrans(was, mid, net.State(), {id}, {});
    assert {id} + {} == {id};
  }

  // ----- Placing the machine

  /** The members a creation may add. */
  datatype Placement = Placement(own: Znet?, access: Znet?, accessId: Option<NodeId>)

  predicate HoldsDraw(znet: Znet?, key: PrivateKey, port: nat) {
    znet != null ==> znet.site.privateKey == key && znet.site.port == port
  }

  /** Each new member listens on the port, and under the key, drawn for it. */
  predicate HoldsDraws(p: Placement, draws: Draws) {
    HoldsDraw(p.own, draws.nodeKey, draws.nodePort) && HoldsDraw(p.access, draws.accessKey, draws.accessPort)
  }

  function IdSet(id: Option<NodeId>): set<NodeId> {
    if id.Some? then {id.value} else {}
  }

  /** Where the user's tunnel ends. */
  function AccessSite(p: Placement, nodeId: NodeId): NodeId {
    if p.accessId.Some? then p.accessId.value else nodeId
  }

  lemma NotYetMember(s: NetState, t: NetState, added: Option<NodeId>, id: NodeId)
    requires Joined(s, t, IdSet(added)) && added != Some(id)
    ensures HasSite(t.sites, id) <==> HasSite(s.sites, id)
  {
  }

  /** The own node is added exactly if it was no member, a foreign one exactly if it is needed. */
  predicate Fits(p: Placement, nodeId: NodeId, member: bool, foreign: bool) {
    && (p.own == null <==> member) && (p.own != null ==> p.own.site.nodeId == nodeId)
    && (p.access != null <==> foreign) && (p.accessId.Some? <==> foreign)
    && (p.access != null && p.accessId.Some? ==> p.access.site.nodeId == p.accessId.value)
  }

  /** The added members' tables are among the network's. */
  ghost predicate Holds(networks: seq<Znet>, p: Placement) {
    (p.own != null ==> p.own in networks) && (p.access != null ==> p.access in networks)
  }

  ghost predicate Granted(before: seq<AccessPoint>, after: seq<AccessPoint>, granted: bool, id: NodeId, key: PublicKey)
  {
    if granted then Gained(before, after, id, key) else after == before
  }

  /** The placement fits, its tables are the network's, and access was granted as due. */
  ghost predicate Equipped(p: Placement, nodeId: NodeId, key: PublicKey, networks: seq<Znet>,
                           before: seq<AccessPoint>, after: seq<AccessPoint>, member: bool, foreign: bool,
                           granted: bool)
  {
    Holds(networks, p) && Fits(p, nodeId, member, foreign)
    && Granted(before, after, granted, AccessSite(p, nodeId), key)
  }

  /** The placement is equipped, and the tables follow `plan` if anything was added. */
  ghost predicate Fitted(net: Network, p: Placement, plan: Plan, nodeId: NodeId, key: PublicKey,
                         was: NetState, foreign: bool, granted: bool)
    reads net, net.networks
  {
    && Equipped(p, nodeId, key, net.networks, was.accessPoints, net.accessPoints, HasSite(was.sites, nodeId), foreign,
                granted)
    && (p.own != null || p.access != null ==> net.Matches(plan))
  }

  /** All members a creation needs are there, its own node's on the subnet set aside for it. */
  ghost predicate Prepared(net: Network, p: Placement, plan: Plan, nodeId: NodeId, key: PublicKey,
                           was: NetState, own: Option<Subnet>, foreign: bool, granted: bool)
    reads net, net.nodes, net.networks
  {
    && Fitted(net, p, plan, nodeId, key, was, foreign, granted) && Seated(p.own, own)
    && Joined(was, net.State(), {nodeId} + IdSet(p.accessId))
  }

  /** The foreign access node, if one is needed, is a member and gives the user access. */
  ghost predicate Accessed(net: Network, p: Placement, plan: Plan, nodeId: NodeId, key: PublicKey, was: NetState,
                           foreign: bool)
    reads net, net.nodes, net.networks
  {
    && Holds(net.networks, p) && Fits(p, nodeId, true, foreign) && (foreign ==> net.Matches(plan))
    && Granted(was.accessPoints, net.accessPoints, foreign, AccessSite(p, nodeId), key)
    && Joined(was, net.State(), IdSet(p.accessId)) && p.accessId != Some(nodeId)
  }

  /** The own node's turn after the access node's. */
  lemma PreparedBy(net: Network, was: NetState, mid: NetState, tables: seq<Znet>, p: Placement, own: Znet?, plan: Plan,
                   nodeId: NodeId, key: PublicKey, subnet: Option<Subnet>, foreign: bool, direct: bool)
    requires Holds(tables, p) && tables <= net.networks && Fits(p, nodeId, true, foreign) && !(foreign && direct)
    requires Granted(was.accessPoints, mid.accessPoints, foreign, AccessSite(p, nodeId), key)
    requires Joined(was, mid, IdSet(p.accessId)) && p.accessId != Some(nodeId)
    requires own == null <==> HasSite(mid.sites, nodeId)
    requires if own == null then net.State() == mid && (foreign ==> net.Matches(plan))
             else Entered(net, mid, own, nodeId, subnet, plan)
    requires Granted(mid.accessPoints, net.accessPoints, direct && own != null, nodeId, key)
    ensures Prepared(net, p.(own := own), plan, nodeId, key, was, subnet, foreign,
                     foreign || (direct && !HasSite(was.sites, nodeId)))
  {
    NotYetMember(was, mid, p.accessId, nodeId);
    JoinedTrans(was, mid, net.State(), IdSet(p.accessId), {nodeId});
    assert IdSet(p.accessId) + {nodeId} == {nodeId} + IdSet(p.accessId);
  }

  /** A new own node sits on the subnet of the caller's address. */
  lemma PreparedSubnet(net: Network, p: Placement, plan: Plan, nodeId: NodeId, key: PublicKey,
                       was: NetState, ip: Ip, foreign: bool, granted: bool)
    requires net.Valid() && Prepared(net, p, plan, nodeId, key, was, Some(SubnetOf(ip)), foreign, granted)
    ensures HasSite(was.sites, nodeId) || NodeSubnet(net.Sites(), nodeId) == Some(SubnetOf(ip))
  {
    if p.own != null {
      SeatedAt(net, p.own);
    }
  }

  /** When a creation that asks for user access provides it: nobody has it yet, and either a foreign access node
      can be added, or the machine's own node is one and joins a network that was never stored. */
  ghost predicate GrantsAccess(net: Network, nodeId: NodeId, addAccess: bool, stored: bool)
    reads net`networks
  {
    && addAccess && !HasAccessMember(net)
    && (nodeId !in net.gridAccess || (!stored && !HasSite(net.Sites(), nodeId)))
  }

  /** A pool that was not there yet has room; joining leaves the others' room alone. */
  lemma RoomKept(s: NetState, t: NetState, ids: set<NodeId>, id: NodeId)
    requires Consistent(s) && Joined(s, t, ids) && HasSite(t.sites, id)
    ensures PoolHasRoom(t, id) <==> HasSite(s.sites, id) ==> PoolHasRoom(s, id)
  {
    if HasSite(s.sites, id) {
      PrefixSubnet(s.sites, t.sites, id);
    } else {
      NoPool(s, id);
      assert Host(NodeSubnet(t.sites, id).value, 2) !in NodeIps(t.nodes, id);
    }
  }

  /** The address handed out is the node's one more; the rest stays as it was. */
  ghost predicate Addressed(s: NetState, t: NetState, id: NodeId, ip: Ip) {
    && t.sites == s.sites && t.accessPoints == s.accessPoints
    && forall x :: NodeIps(t.nodes, x) == NodeIps(s.nodes, x) + if x == id then [ip] else []
  }

  lemma AddressGiven(s: NetState, id: NodeId, ip: Ip)
    requires Consistent(s) && HasSite(s.sites, id) && ip !in NodeIps(s.nodes, id)
    ensures var t := s.(nodes := PushIp(s.nodes, id, ip));
            Addressed(s, t, id, ip) && (Consistent(t) <==> InSubnet(ip, NodeSubnet(s.sites, id).value))
  {
    PushIpConsistent(s, id, ip);
    var k := SiteIndex(s.sites, id);
    assert s.nodes[k].nodeId == id;
    forall x ensures NodeIps(PushIp(s.nodes, id, ip), x) == NodeIps(s.nodes, x) + if x == id then [ip] else [] {
      PushIpPool(s.nodes, id, ip, x);
    }
  }

  predicate Claimable(s: NetState, id: NodeId, ip: Ip) {
    NodeSubnet(s.sites, id) == Some(SubnetOf(ip)) && ip !in NodeIps(s.nodes, id)
  }

  lemma ClaimableIff(s: NetState, id: NodeId, ip: Ip)
    requires HasSite(s.sites, id)
    ensures Claimable(s, id, ip) <==> ip !in NodeIps(s.nodes, id) && InSubnet(ip, NodeSubnet(s.sites, id).value)
  {
  }

  lemma ClaimGives(s: NetState, id: NodeId, ip: Ip)
    requires Consistent(s) && Claimable(s, id, ip)
    ensures Addressed(s, Apply(s, ClaimIp(id, ip)), id, ip) && Consistent(Apply(s, ClaimIp(id, ip)))
  {
    var i := SiteIndex(s.sites, id);
    assert s.sites[i] in s.sites;
    AddressGiven(s, id, ip);
  }

  lemma TakeGives(s: NetState, id: NodeId)
    requires Consistent(s) && HasSite(s.sites, id)
    ensures Addressed(s, Apply(s, TakeIp(id)), id, FreeIp(s, id))
    ensures Consistent(Apply(s, TakeIp(id))) <==> PoolHasRoom(s, id)
  {
    LeastFreeIs(NodeIps(s.nodes, id), Host(NodeSubnet(s.sites, id).value, 2));
    AddressGiven(s, id, FreeIp(s, id));
    TakeIpIff(s, id);
  }

  lemma RecordOf(net: Network, id: NodeId)
    requires Consistent(net.State()) && HasSite(net.Sites(), id)
    ensures net.HasRecord(id)
  {
    var s := net.State();
    var i := SiteIndex(s.sites, id);
    assert s.nodes[i].nodeId == id && net.nodes[i] in net.nodes;
  }

  /** What a creation does to a network: the members in `ids` joined, and `id` has one address more. */
  ghost predicate Placed(s: NetState, t: NetState, ids: set<NodeId>, id: NodeId, ip: Ip) {
    && s.sites <= t.sites && HasSite(t.sites, id)
    && (forall x :: HasSite(t.sites, x) <==> HasSite(s.sites, x) || x in ids)
    && (forall x :: NodeIps(t.nodes, x) == NodeIps(s.nodes, x) + if x == id then [ip] else [])
  }

  lemma PlacedBy(s: NetState, joined: NetState, t: NetState, ids: set<NodeId>, id: NodeId, ip: Ip)
    requires Consistent(s) && Joined(s, joined, ids) && id in ids && Addressed(joined, t, id, ip)
    ensures Placed(s, t, ids, id, ip)
    ensures PoolHasRoom(joined, id) <==> HasSite(s.sites, id) ==> PoolHasRoom(s, id)
  {
    RoomKept(s, joined, ids, id);
  }

  /** A subnet that could be claimed is no old member's: an address in it is to be had on a new one only. */
  lemma ClaimableIffNew(s: NetState, joined: NetState, ids: set<NodeId>, id: NodeId, ip: Ip)
    requires Consistent(s) && Joined(s, joined, ids) && SubnetOf(ip) !in Reserved(s)
    requires HasSite(s.sites, id) || NodeSubnet(joined.sites, id) == Some(SubnetOf(ip))
    ensures Claimable(joined, id, ip) <==> !HasSite(s.sites, id)
  {
    if HasSite(s.sites, id) {
      PrefixSubnet(s.sites, joined.sites, id);
      MemberSubnetIsReserved(s, id);
    } else {
      NoPool(s, id);
    }
  }

  lemma MemberSubnetIsReserved(s: NetState, id: NodeId)
    requires HasSite(s.sites, id)
    ensures NodeSubnet(s.sites, id).value in Reserved(s)
  {
    UsedAreReserved(s);
    var i := SiteIndex(s.sites, id);
    assert SiteSubnets(s.sites)[i] == s.sites[i].subnet;
  }

  /** A machine is placed: its members joined, it has an address, and the network is in order if there was one. */
  ghost predicate Settled(net: Network, was: NetState, p: Placement, plan: Plan, nodeId: NodeId, key: PublicKey,
                          ip: Ip, foreign: bool, granted: bool)
    reads net, net.nodes, net.networks
  {
    && Placed(was, net.State(), {nodeId} + IdSet(p.accessId), nodeId, ip)
    && (Consistent(net.State()) <==> HasSite(was.sites, nodeId) ==> PoolHasRoom(was, nodeId))
    && Fitted(net, p, plan, nodeId, key, was, foreign, granted)
  }

  /** The user's tunnel ends at the machine's own node if that is an access node, else at the one added. It is given
      if it was asked for and no access node was a member, unless the own node is one and either the network was
      stored or it was a member. */
  ghost predicate AccessGiven(was: NetState, points: seq<AccessPoint>, gridAccess: map<NodeId, AccessConfig>,
                              nodeId: NodeId, addAccess: bool, stored: bool, accessId: Option<NodeId>, key: PublicKey) {
    if addAccess && (forall a :: a in gridAccess ==> !HasSite(was.sites, a))
       && (nodeId in gridAccess ==> !stored && !HasSite(was.sites, nodeId))
    then && (accessId.None? <==> nodeId in gridAccess)
         && Gained(was.accessPoints, points, if accessId.Some? then accessId.value else nodeId, key)
    else accessId.None? && points == was.accessPoints
  }

  lemma AccessGivenBy(net: Network, was: NetState, p: Placement, plan: Plan, nodeId: NodeId, key: PublicKey, ip: Ip,
                      addAccess: bool, stored: bool, member: bool)
    requires member <==> exists a :: a in net.gridAccess && HasSite(was.sites, a)
    requires Settled(net, was, p, plan, nodeId, key, ip, addAccess && nodeId !in net.gridAccess && !member,
                     addAccess && !member && (nodeId !in net.gridAccess || (!stored && !HasSite(was.sites, nodeId))))
    ensures AccessGiven(was, net.accessPoints, net.gridAccess, nodeId, addAccess, stored, p.accessId, key)
  {
  }

  class VMHL {
    const networkName: string

    constructor (networkName: string)
      ensures this.networkName == networkName
    {
      this.networkName := networkName;
    }

    /** For a machine at an address of the caller's choice: its subnet is claimed, and another set aside. */
    method ReserveSubnets(net: Network, ip: Option<Ip>)
      returns (r: Result<(), CreateError>, own: Option<Subnet>, access: Option<Subnet>)
      modifies net`reservedSubnets
      ensures r.Ok? <==> ip.None? || SubnetOf(ip.value) !in Reserved(old(net.State()))
      ensures r.Ok? ==> net.State() == SetAside(old(net.State()), ip)
                        && own == OwnSubnet(ip) && access == AccessSubnet(old(net.State()), ip)
      ensures r.Err? ==> r.error == Refused(SubnetNotFree)
    {
      if ip.None? {
        return Ok(()), None, None;
      }
      var claimed := net.ValidateFreeSubnet(SubnetOf(ip.value));
      if claimed.Err? {
        return Err(Refused(claimed.error)), None, None;
      }
      var free := net.GetFreeSubnet();
      return Ok(()), Some(claimed.value), Some(free);
    }

    method HoldSubnets(net: Network, ip: Option<Ip>)
      returns (r: Result<(), CreateError>, own: Option<Subnet>, access: Option<Subnet>)
      requires net.Valid() && Consistent(net.State())
      modifies net`reservedSubnets
      ensures r.Ok? <==> SubnetFree(old(net.State()), ip)
      ensures r.Ok? ==> Aside(old(net.State()), net.State()) && Held(net.State(), own) && Held(net.State(), access)
      ensures r.Ok? ==> own == OwnSubnet(ip) && (own.Some? ==> own != access)
    {
      ghost var was := net.State();
      r, own, access := ReserveSubnets(net, ip);
      if r.Ok? {
        SetAsideHolds(was, ip);
      }
    }

    method FindAccessMember(net: Network) returns (found: bool)
      ensures found <==> HasAccessMember(net)
    {
      var left := net.gridAccess.Keys;
      while left != {}
        invariant left <= net.gridAccess.Keys
        invariant forall id :: id in net.gridAccess && id !in left ==> !HasSite(net.Sites(), id)
        decreases |left|
      {
        var id :| id in left;
        var known := net.NodeExists(id);
        if known {
          return true;
        }
        left := left - {id};
      }
      return false;
    }

    method JoinNode(net: Network, id: NodeId, subnet: Option<Subnet>, key: PrivateKey, port: nat)
      returns (r: Result<Znet?, CreateError>, ghost plan: Plan)
      requires net.Valid() && Consistent(net.State()) && Held(net.State(), subnet)
      modifies net`nodes, net`networks, net`reservedSubnets, net`accessNodes, net.networks
      ensures net.Valid() && old(net.nodes) <= net.nodes
              && forall i :: |old(net.nodes)| <= i < |net.nodes| ==> fresh(net.nodes[i])
      ensures old(net.networks) <= net.networks
              && forall i :: |old(net.networks)| <= i < |net.networks| ==> fresh(net.networks[i])
      ensures r == Ok(null) <==> old(HasSite(net.Sites(), id))
      ensures r == Ok(null) ==> unchanged(net) && unchanged(net.networks)
      ensures r.Err? <==> !old(HasSite(net.Sites(), id)) && old(net.UnmeshableWith(id))
      ensures r.Ok? && r.value != null ==> Entered(net, old(net.State()), r.value, id, subnet, plan)
      ensures r.Ok? ==> HoldsDraw(r.value, key, port)
      ensures r.Err? ==> r.error.Refused?
    {
      ghost var was := net.State();
      var added;
      added, plan := net.AddNode(id, subnet, key, port);
      if added.Err? {
        return Err(Refused(added.error)), plan;
      }
      if added.value != null {
        NodeJoins(was, net.State(), id, subnet, key, port);
        NewSite(was, net.State(), id, subnet, key, port);
        TableOfMember(net, added.value, Last(net.Sites()));
      }
      return Ok(added.value), plan;
    }

    /** The user's access through a member that just joined. */
    method JoinUser(net: Network, id: NodeId, key: PrivateKey,
                    ghost was: NetState, ghost znet: Znet, ghost subnet: Option<Subnet>, ghost before: Plan)
      returns (r: Result<(), CreateError>, ghost plan: Plan)
      requires net.Valid() && Entered(net, was, znet, id, subnet, before) && id in net.gridAccess
      modifies net`accessPoints, net`reservedSubnets, net`accessNodes, net.networks
      ensures net.Valid()
      ensures r.Ok? <==> net.gridAccess[id].ipv4
      ensures r.Ok? ==> Entered(net, was, znet, id, subnet, plan)
      ensures r.Ok? ==> Gained(old(net.accessPoints), net.accessPoints, id, PublicKey(key))
      ensures r.Err? ==> r.error.Refused?
    {
      ghost var mid := net.State();
      var access;
      access, plan := net.AddAccess(id, true, key);
      if access.Err? {
        return Err(Refused(access.error)), plan;
      }
      AccessJoins(mid, net.State(), id, PublicKey(key));
      StillEntered(net, was, mid, znet, id, subnet, plan);
      return Ok(()), plan;
    }

    method DrawAccessNode(net: Network) returns (id: Option<NodeId>)
      ensures id.Some? <==> OffersIpv4(net.gridAccess)
      ensures id.Some? ==> id.value in net.gridAccess && net.gridAccess[id.value].ipv4
    {
      var candidates := set a | a in net.gridAccess && net.gridAccess[a].ipv4;
      if candidates == {} {
        assert forall a :: a in net.gridAccess ==> a !in candidates;
        return None;
      }
      var drawn :| drawn in candidates;
      return Some(drawn);
    }

    /** Makes an access node of the grid a member and gives the user access through it. */
    method AddAccessNode(net: Network, id: NodeId, subnet: Option<Subnet>, draws: Draws)
      returns (r: Result<Znet, CreateError>, ghost plan: Plan)
      requires net.Valid() && Consistent(net.State()) && Held(net.State(), subnet)
      requires id in net.gridAccess && !HasSite(net.Sites(), id)
      modifies net, net.networks
      ensures net.Valid() && old(net.nodes) <= net.nodes
              && forall i :: |old(net.nodes)| <= i < |net.nodes| ==> fresh(net.nodes[i])
      ensures old(net.networks) <= net.networks
              && forall i :: |old(net.networks)| <= i < |net.networks| ==> fresh(net.networks[i])
      ensures r.Ok? ==> Entered(net, old(net.State()), r.value, id, subnet, plan)
      ensures r.Ok? ==> Gained(old(net.accessPoints), net.accessPoints, id, PublicKey(draws.userKey))
                        && HoldsDraw(r.value, draws.accessKey, draws.accessPort)
      ensures r.Ok? <==> net.gridAccess[id].ipv4
      ensures r.Err? ==> r.error.Refused?
    {
      ghost var was := net.State();
      net.MeshableThrough(id, id);
      var added;
      added, plan := JoinNode(net, id, subnet, draws.accessKey, draws.accessPort);
      var access;
      access, plan := JoinUser(net, id, draws.userKey, was, added.value, subnet, plan);
      r := if access.Ok? then Ok(added.value) else Err(access.error);
    }

    /** A foreign access node is added: one is needed, there is none yet, and the own node gives no access. */
    method JoinAccess(net: Network, nodeId: NodeId, access: Option<Subnet>, ghost own: Option<Subnet>, draws: Draws,
                      ghost was: NetState)
      returns (r: Result<Placement, CreateError>, ghost plan: Plan)
      requires net.Valid() && Consistent(net.State()) && Held(net.State(), access)
      requires Held(net.State(), own) && (own.Some? ==> own != access)
      requires !HasAccessMember(net) && nodeId !in net.gridAccess
      requires Aside(was, net.State())
      modifies net, net.networks
      ensures net.Valid() && old(net.nodes) <= net.nodes
              && forall i :: |old(net.nodes)| <= i < |net.nodes| ==> fresh(net.nodes[i])
      ensures old(net.networks) <= net.networks
              && forall i :: |old(net.networks)| <= i < |net.networks| ==> fresh(net.networks[i])
      ensures r.Ok? <==> OffersIpv4(net.gridAccess)
      ensures r.Ok? ==> Accessed(net, r.value, plan, nodeId, PublicKey(draws.userKey), was, true)
                        && Held(net.State(), own) && HoldsDraws(r.value, draws)
      ensures r.Ok? ==> !net.UnmeshableWith(nodeId)
    {
      ghost var aside := net.State();
      plan := Plan([], [], map[], map[], []);
      var drawn := DrawAccessNode(net);
      if drawn.None? {
        return Err(NoIpv4AccessNode), plan;
      }
      var added;
      added, plan := AddAccessNode(net, drawn.value, access, draws);
      net.MeshableThrough(drawn.value, nodeId);
      JoinedAfterAside(was, aside, net.State(), {drawn.value});
      HeldStays(aside, net.State(), own, access);
      return Ok(Placement(null, added.value, drawn)), plan;
    }

    /** The machine's own node joins, and gives the user access if `direct`. */
    method JoinOwn(net: Network, nodeId: NodeId, direct: bool, own: Option<Subnet>, draws: Draws)
      returns (r: Result<Znet?, CreateError>, ghost plan: Plan)
      requires net.Valid() && Consistent(net.State()) && Held(net.State(), own)
      requires direct ==> nodeId in net.gridAccess
      modifies net, net.networks
      ensures net.Valid() && old(net.nodes) <= net.nodes
              && forall i :: |old(net.nodes)| <= i < |net.nodes| ==> fresh(net.nodes[i])
      ensures old(net.networks) <= net.networks
      ensures r == Ok(null) <==> old(HasSite(net.Sites(), nodeId))
      ensures r == Ok(null) ==> unchanged(net) && unchanged(net.networks)
      ensures r.Ok? <==> old(Admits(net, nodeId, false, direct))
      ensures r.Ok? && r.value != null ==> Entered(net, old(net.State()), r.value, nodeId, own, plan)
      ensures r.Ok? ==> HoldsDraw(r.value, draws.nodeKey, draws.nodePort)
      ensures r.Ok? ==> Granted(old(net.accessPoints), net.accessPoints, direct && r.value != null, nodeId,
                                PublicKey(draws.userKey))
    {
      ghost var was := net.State();
      r, plan := JoinNode(net, nodeId, own, draws.nodeKey, draws.nodePort);
      if r.Ok? && r.value != null && direct {
        var user;
        user, plan := JoinUser(net, nodeId, draws.userKey, was, r.value, own, plan);
        if user.Err? {
          r := Err(user.error);
        }
      }
    }

    /** The own node's turn, the foreign access node being in place if one is needed. */
    method JoinRest(net: Network, nodeId: NodeId, ghost foreign: bool, direct: bool, own: Option<Subnet>, draws: Draws,
                    first: Placement, ghost was: NetState, ghost before: Plan)
      returns (r: Result<Placement, CreateError>, ghost plan: Plan)
      requires net.Valid() && Consistent(net.State()) && Held(net.State(), own) && !(foreign && direct)
      requires direct ==> nodeId in net.gridAccess
      requires Accessed(net, first, before, nodeId, PublicKey(draws.userKey), was, foreign)
      requires HoldsDraws(first, draws)
      modifies net, net.networks
      ensures net.Valid() && old(net.nodes) <= net.nodes
              && forall i :: |old(net.nodes)| <= i < |net.nodes| ==> fresh(net.nodes[i])
      ensures r.Ok? <==> old(Admits(net, nodeId, false, direct))
      ensures r.Ok? ==> HoldsDraws(r.value, draws)
      ensures r.Ok? ==> Prepared(net, r.value, plan, nodeId, PublicKey(draws.userKey), was, own, foreign,
                                 foreign || (direct && !HasSite(was.sites, nodeId)))
    {
      ghost var mid, tables := net.State(), net.networks;
      var joined;
      joined, plan := JoinOwn(net, nodeId, direct, own, draws);
      if joined.Err? {
        return Err(joined.error), plan;
      }
      if joined.value == null {
        plan := before;
      }
      PreparedBy(net, was, mid, tables, first, joined.value, plan, nodeId, PublicKey(draws.userKey), own, foreign,
                 direct);
      r := Ok(first.(own := joined.value));
    }

    /** A foreign access node joins, then the machine's own node unless it is a member; nothing can fail once the
        access node is drawn. */
    method JoinThrough(net: Network, nodeId: NodeId, own: Option<Subnet>, access: Option<Subnet>, draws: Draws,
                       ghost was: NetState)
      returns (r: Result<Placement, CreateError>, ghost plan: Plan)
      requires net.Valid() && Consistent(net.State())
      requires Held(net.State(), own) && Held(net.State(), access) && (own.Some? ==> own != access)
      requires !HasAccessMember(net) && nodeId !in net.gridAccess
      requires Aside(was, net.State())
      modifies net, net.networks
      ensures net.Valid() && (r.Ok? <==> OffersIpv4(net.gridAccess))
      ensures r.Ok? ==> Prepared(net, r.value, plan, nodeId, PublicKey(draws.userKey), was, own, true, true)
                        && HoldsDraws(r.value, draws)
      ensures old(net.nodes) <= net.nodes && forall i :: |old(net.nodes)| <= i < |net.nodes| ==> fresh(net.nodes[i])
    {
      r, plan := JoinAccess(net, nodeId, access, own, draws, was);
      if r.Ok? {
        assert Admits(net, nodeId, false, false);
        r, plan := JoinRest(net, nodeId, true, false, own, draws, r.value, was, plan);
      }
    }

    /** Adds what is missing: a foreign access node if one is needed, then the machine's own node. */
    method Join(net: Network, nodeId: NodeId, foreign: bool, direct: bool,
                own: Option<Subnet>, access: Option<Subnet>, draws: Draws, ghost was: NetState)
      returns (r: Result<Placement, CreateError>, ghost plan: Plan)
      requires net.Valid() && Consistent(net.State())
      requires Held(net.State(), own) && Held(net.State(), access) && (own.Some? ==> own != access)
      requires foreign ==> !HasAccessMember(net) && nodeId !in net.gridAccess
      requires direct ==> nodeId in net.gridAccess
      requires Aside(was, net.State())
      modifies net, net.networks
      ensures net.Valid()
      ensures r.Ok? <==> old(Admits(net, nodeId, foreign, direct))
      ensures r.Ok? ==> HoldsDraws(r.value, draws)
      ensures r.Ok? ==> Prepared(net, r.value, plan, nodeId, PublicKey(draws.userKey), was, own, foreign,
                                 foreign || (direct && !HasSite(was.sites, nodeId)))
      ensures old(net.nodes) <= net.nodes && forall i :: |old(net.nodes)| <= i < |net.nodes| ==> fresh(net.nodes[i])
    {
      if foreign {
        r, plan := JoinThrough(net, nodeId, own, access, draws, was);
      } else {
        r, plan := Ok(Placement(null, null, None)), Plan([], [], map[], map[], []);
        r, plan := JoinRest(net, nodeId, false, direct, own, draws, r.value, was, plan);
      }
    }

    /** The caller's address, if the node has it to give. */
    method AddressAt(net: Network, nodeId: NodeId, ip: Ip) returns (r: Result<Ip, CreateError>)
      requires net.Valid() && Consistent(net.State()) && HasSite(net.Sites(), nodeId)
      modifies net.nodes
      ensures net.Valid()
      ensures r.Ok? <==> Claimable(old(net.State()), nodeId, ip)
      ensures r.Ok? ==> r.value == ip && Addressed(old(net.State()), net.State(), nodeId, ip) && Consistent(net.State())
    {
      ghost var was := net.State();
      RecordOf(net, nodeId);
      ClaimableIff(was, nodeId, ip);
      var valid := net.ValidateUserIp(nodeId, ip);
      if valid.Err? {
        return Err(Refused(valid.error));
      }
      assert Claimable(was, nodeId, ip);
      ClaimGives(was, nodeId, ip);
      return Ok(valid.value.value);
    }

    /** The first free address; the pool is not checked for having one. */
    method AddressFree(net: Network, nodeId: NodeId) returns (ip: Ip)
      requires net.Valid() && Consistent(net.State()) && HasSite(net.Sites(), nodeId)
      modifies net.nodes
      ensures net.Valid() && ip == FreeIp(old(net.State()), nodeId)
      ensures Addressed(old(net.State()), net.State(), nodeId, ip)
      ensures Consistent(net.State()) <==> PoolHasRoom(old(net.State()), nodeId)
    {
      ghost var was := net.State();
      RecordOf(net, nodeId);
      var free := net.GetFreeIp(nodeId, None);
      TakeGives(was, nodeId);
      return free.value;
    }

    /** Subnets, members and access for one machine. */
    method Prepare(net: Network, nodeId: NodeId, addAccess: bool, ip: Option<Ip>, stored: bool, draws: Draws)
      returns (r: Result<Placement, CreateError>, ghost plan: Plan)
      requires net.Valid() && Consistent(net.State())
      modifies net, net.networks
      ensures net.Valid() && old(net.nodes) <= net.nodes
              && forall i :: |old(net.nodes)| <= i < |net.nodes| ==> fresh(net.nodes[i])
      ensures r.Ok? <==> SubnetFree(old(net.State()), ip)
                         && old(Admits(net, nodeId, NeedsForeign(net, nodeId, addAccess),
                                       GrantsAccess(net, nodeId, addAccess, stored)))
      ensures r.Ok? ==> HoldsDraws(r.value, draws)
      ensures r.Ok? ==> Prepared(net, r.value, plan, nodeId, PublicKey(draws.userKey), old(net.State()), OwnSubnet(ip),
                                 old(NeedsForeign(net, nodeId, addAccess)),
                                 old(GrantsAccess(net, nodeId, addAccess, stored)))
    {
      plan := Plan([], [], map[], map[], []);
      ghost var was := net.State();
      var reserved, own, access := HoldSubnets(net, ip);
      if reserved.Err? {
        r := Err(reserved.error);
      } else {
        var foreign, direct := AccessRoles(net, nodeId, addAccess, stored);
        r, plan := Join(net, nodeId, foreign, direct, own, access, draws, was);
      }
    }

    /** Whether a foreign node is to give access, or the machine's own. */
    method AccessRoles(net: Network, nodeId: NodeId, addAccess: bool, stored: bool)
      returns (foreign: bool, direct: bool)
      ensures foreign <==> NeedsForeign(net, nodeId, addAccess)
      ensures foreign || (direct && !HasSite(net.Sites(), nodeId)) <==> GrantsAccess(net, nodeId, addAccess, stored)
      ensures direct ==> nodeId in net.gridAccess
    {
      var hasMember := false;
      if addAccess {
        hasMember := FindAccessMember(net);
      }
      foreign := addAccess && nodeId !in net.gridAccess && !hasMember;
      direct := addAccess && nodeId in net.gridAccess && !hasMember && !stored;
    }

    /** The machine's address: the caller's, or the first free one. */
    method Address(net: Network, nodeId: NodeId, ip: Option<Ip>) returns (r: Result<Ip, CreateError>)
      requires net.Valid() && Consistent(net.State()) && HasSite(net.Sites(), nodeId)
      modifies net.nodes
      ensures net.Valid()
      ensures r.Ok? <==> ip.None? || Claimable(old(net.State()), nodeId, ip.value)
      ensures r.Ok? && ip.Some? ==> r.value == ip.value && Consistent(net.State())
      ensures r.Ok? && ip.None? ==> r.value == FreeIp(old(net.State()), nodeId)
                                    && (Consistent(net.State()) <==> PoolHasRoom(old(net.State()), nodeId))
      ensures r.Ok? ==> Addressed(old(net.State()), net.State(), nodeId, r.value)
    {
      if ip.Some? {
        r := AddressAt(net, nodeId, ip.value);
      } else {
        var free := AddressFree(net, nodeId);
        r := Ok(free);
      }
    }

    /** The address of a prepared machine: one of the caller's choice is to be had on a new member only. */
    method GiveAddress(net: Network, nodeId: NodeId, ip: Option<Ip>, ghost p: Placement, ghost plan: Plan,
                       ghost key: PublicKey, ghost was: NetState, ghost foreign: bool, ghost granted: bool)
      returns (r: Result<Ip, CreateError>)
      requires net.Valid() && Consistent(was) && SubnetFree(was, ip)
      requires Prepared(net, p, plan, nodeId, key, was, OwnSubnet(ip), foreign, granted)
      modifies net.nodes
      ensures net.Valid()
      ensures r.Ok? <==> (ip.Some? ==> !HasSite(was.sites, nodeId))
      ensures r.Ok? ==> Placed(was, net.State(), {nodeId} + IdSet(p.accessId), nodeId, r.value)
      ensures r.Ok? ==> (Consistent(net.State()) <==> HasSite(was.sites, nodeId) ==> PoolHasRoom(was, nodeId))
      ensures r.Ok? && ip.Some? ==> r.value == ip.value
    {
      ghost var joined, ids := net.State(), {nodeId} + IdSet(p.accessId);
      if ip.Some? {
        PreparedSubnet(net, p, plan, nodeId, key, was, ip.value, foreign, granted);
        ClaimableIffNew(was, joined, ids, nodeId, ip.value);
      }
      r := Address(net, nodeId, ip);
      if r.Ok? {
        PlacedBy(was, joined, net.State(), ids, nodeId, r.value);
      }
    }

    /** Giving the address leaves what was prepared in place. */
    method Settle(net: Network, nodeId: NodeId, ip: Option<Ip>, ghost p: Placement, ghost plan: Plan,
                  ghost key: PublicKey, ghost was: NetState, ghost foreign: bool, ghost granted: bool)
      returns (r: Result<Ip, CreateError>)
      requires net.Valid() && Consistent(was) && SubnetFree(was, ip)
      requires Prepared(net, p, plan, nodeId, key, was, OwnSubnet(ip), foreign, granted)
      modifies net.nodes
      ensures net.Valid()
      ensures r.Ok? <==> (ip.Some? ==> !HasSite(was.sites, nodeId))
      ensures r.Ok? ==> Settled(net, was, p, plan, nodeId, key, r.value, foreign, granted)
      ensures r.Ok? && ip.Some? ==> r.value == ip.value
    {
      r := GiveAddress(net, nodeId, ip, p, plan, key, was, foreign, granted);
    }

    /** Subnets, members, access and address for one machine. An address of the caller's choice is only
        to be had on a node that is not in the network yet. */
    method Place(net: Network, nodeId: NodeId, addAccess: bool, ip: Option<Ip>, stored: bool, draws: Draws)
      returns (r: Result<Placement, CreateError>, address: Ip, ghost plan: Plan)
      requires net.Valid() && Consistent(net.State())
      modifies net, net.nodes, net.networks
      ensures net.Valid()
      ensures r.Ok? <==> old(Creatable(net, nodeId, addAccess, ip, stored))
      ensures r.Ok? ==> Settled(net, old(net.State()), r.value, plan, nodeId, PublicKey(draws.userKey), address,
                                old(NeedsForeign(net, nodeId, addAccess)),
                                old(GrantsAccess(net, nodeId, addAccess, stored)))
      ensures r.Ok? ==> HoldsDraws(r.value, draws) && (ip.Some? ==> address == ip.value)
    {
      ghost var was := net.State();
      ghost var foreign, granted := NeedsForeign(net, nodeId, addAccess), GrantsAccess(net, nodeId, addAccess, stored);
      address := 0;
      r, plan := Prepare(net, nodeId, addAccess, ip, stored, draws);
      if r.Ok? {
        var given := Settle(net, nodeId, ip, r.value, plan, PublicKey(draws.userKey), was, foreign, granted);
        if given.Ok? {
          address := given.value;
        } else {
          r := Err(given.error);
        }
      }
    }

    method Renew(net: Network, ws: seq<Workload>) returns (renewed: seq<Workload>)
      ensures renewed == Renewed(net.NetViews(), ws)
    {
      for i := 0 to |ws|
        invariant forall k :: 0 <= k < i ==> !InRange(ws[k])
      {
        if !InRange(ws[i]) {
          continue;
        }
        var znet := net.UpdateNetwork(ws[i].data.subnet);
        var data := if znet == null then OtherData("") else NetworkData(znet.site.subnet, znet.peers);
        FoundTable(net, ws[i].data.subnet, znet);
        return ws[i := ws[i].(version := ws[i].version + 1, data := data)];
      }
      return ws;
    }

    method RenewAll(net: Network, published: seq<DeploymentView>) returns (ops: seq<TwinView>)
      ensures ops == Renewals(net.NetViews(), published, networkName)
    {
      ops := [];
      for i := 0 to |published|
        invariant ops == Renewals(net.NetViews(), published, networkName)[..i]
      {
        var renewed := Renew(net, published[i].workloads);
        ops := ops + [TwinView(published[i].(workloads := renewed), Operation.Update, 0, 0, Some(networkName))];
      }
    }

    /** Creates a machine: what happens to the network, and the operations that bring it about on the grid. */
    method Create(net: Network, spec: MachineSpec, addAccess: bool, ip: Option<Ip>, stored: bool,
                  published: seq<DeploymentView>, draws: Draws)
      returns (r: Result<seq<TwinView>, CreateError>, address: Ip, ghost placement: Placement, ghost plan: Plan)
      requires net.Valid() && Consistent(net.State())
      modifies net, net.nodes, net.networks
      ensures net.Valid()
      ensures r.Ok? <==> old(Creatable(net, spec.nodeId, addAccess, ip, stored))
      ensures r.Ok? ==> Settled(net, old(net.State()), placement, plan, spec.nodeId, PublicKey(draws.userKey), address,
                                old(NeedsForeign(net, spec.nodeId, addAccess)),
                                old(GrantsAccess(net, spec.nodeId, addAccess, stored)))
      ensures r.Ok? ==> HoldsDraws(placement, draws) && (ip.Some? ==> address == ip.value)
      ensures r.Ok? ==> r.value == Operations(net.NetViews(), spec, TableOf(placement.own), TableOf(placement.access),
                                              placement.accessId, address, stored, published, networkName)
      ensures r.Ok? ==> Planned(r.value, net.NetViews(), spec, !old(HasSite(net.Sites(), spec.nodeId)),
                                placement.accessId, address, stored, published, networkName)
      ensures r.Ok? ==> AccessGiven(old(net.State()), net.accessPoints, net.gridAccess, spec.nodeId, addAccess, stored,
                                    placement.accessId, PublicKey(draws.userKey))
    {
      ghost var was, foreign := net.State(), NeedsForeign(net, spec.nodeId, addAccess);
      ghost var member := HasAccessMember(net);
      ghost var granted := GrantsAccess(net, spec.nodeId, addAccess, stored);
      var placed;
      placed, address, plan := Place(net, spec.nodeId, addAccess, ip, stored, draws);
      if placed.Err? {
        r, placement := Err(placed.error), Placement(null, null, None);
      } else {
        placement := placed.value;
        var ops := Finish(net, spec, placed.value, address, stored, published, was, plan, PublicKey(draws.userKey),
                          foreign, granted);
        AccessGivenBy(net, was, placed.value, plan, spec.nodeId, PublicKey(draws.userKey), address, addAccess, stored,
                      member);
        r := Ok(ops);
      }
    }

    /** The operations for a machine that is placed. */
    method Finish(net: Network, spec: MachineSpec, p: Placement, address: Ip, stored: bool,
                  published: seq<DeploymentView>,
                  ghost was: NetState, ghost plan: Plan, ghost key: PublicKey, ghost foreign: bool, ghost granted: bool)
      returns (ops: seq<TwinView>)
      requires net.Valid() && Settled(net, was, p, plan, spec.nodeId, key, address, foreign, granted)
      ensures net.Valid() && Settled(net, was, p, plan, spec.nodeId, key, address, foreign, granted)
      ensures ops == Operations(net.NetViews(), spec, TableOf(p.own), TableOf(p.access), p.accessId,
                                address, stored, published, networkName)
      ensures Planned(ops, net.NetViews(), spec, !HasSite(was.sites, spec.nodeId), p.accessId, address, stored,
                      published, networkName)
    {
      PlannedFor(net, spec, p, HasSite(was.sites, spec.nodeId), foreign, address, stored, published, networkName);
      ops := Assemble(net, spec, TableOf(p.own), TableOf(p.access), p.accessId, address, stored, published);
    }

    method Assemble(net: Network, spec: MachineSpec, own: Option<Data>, access: Option<Data>, accessId: Option<NodeId>,
                    address: Ip, stored: bool, published: seq<DeploymentView>) returns (ops: seq<TwinView>)
      ensures ops == Operations(net.NetViews(), spec, own, access, accessId, address, stored, published, networkName)
    {
      ops := [];
      var workloads := spec.parts;
      if stored && (own.Some? || access.Some?) {
        ops := RenewAll(net, published);
        if own.Some? {
          workloads := workloads + [NetworkWorkload(networkName, spec, own.value)];
        }
      } else if own.Some? {
        workloads := workloads + [NetworkWorkload(networkName, spec, own.value)];
      }
      assert ops == if stored && (own.Some? || access.Some?)
                    then Renewals(net.NetViews(), published, networkName) else [];
      if access.Some? && accessId.Some? {
        var d := DeploymentView(0, 0, [NetworkWorkload(networkName, spec, access.value)]);
        ops := ops + [TwinView(d, Operation.Deploy, 0, accessId.value, Some(networkName))];
      }
      assert workloads == spec.parts + if own.Some? then [NetworkWorkload(networkName, spec, own.value)] else [];
      workloads := workloads + [MachineWorkload(networkName, spec, address)];
      ops := ops + [TwinView(DeploymentView(0, 0, workloads), Operation.Deploy, spec.publicIps, spec.nodeId,
                             Some(networkName))];
    }
  }

  /** The tables of the members added are among the network's views. */
  lemma TablesHeld(net: Network, p: Placement)
    requires Holds(net.networks, p)
    ensures p.own != null ==> IsTable(TableOf(p.own), net.NetViews(), p.own.site.nodeId)
    ensures p.access != null ==> IsTable(TableOf(p.access), net.NetViews(), p.access.site.nodeId)
  {
    if p.own != null {
      var k :| 0 <= k < |net.networks| && net.networks[k] == p.own;
      assert net.NetViews()[k] in net.NetViews();
    }
    if p.access != null {
      var k :| 0 <= k < |net.networks| && net.networks[k] == p.access;
      assert net.NetViews()[k] in net.NetViews();
    }
  }

  lemma PlannedFor(net: Network, spec: MachineSpec, p: Placement, member: bool, foreign: bool, address: Ip,
                   stored: bool, published: seq<DeploymentView>, network: string)
    requires Holds(net.networks, p) && Fits(p, spec.nodeId, member, foreign)
    ensures Planned(Operations(net.NetViews(), spec, TableOf(p.own), TableOf(p.access), p.accessId, address, stored,
                               published, network),
                    net.NetViews(), spec, !member, p.accessId, address, stored, published, network)
  {
    TablesHeld(net, p);
    OperationsAsPlanned(net.NetViews(), spec, TableOf(p.own), TableOf(p.access), p.accessId, address, stored,
                        published, network);
  }

  lemma FoundTable(net: Network, subnet: Subnet, znet: Znet?)
    requires znet != null ==>
               exists i :: 0 <= i < |net.networks| && znet == net.networks[i] && znet.site.subnet == subnet
                                          && forall k :: 0 <= k < i ==> net.networks[k].site.subnet != subnet
    requires znet == null ==> forall n :: n in net.networks ==> n.site.subnet != subnet
    ensures TableIn(net.NetViews(), subnet)
            == if znet == null then OtherData("") else NetworkData(znet.site.subnet, znet.peers)
  {
    var views := net.NetViews();
    assert forall j :: 0 <= j < |views| ==> views[j].site == net.networks[j].site && net.networks[j] in net.networks;
    var k := ViewIndex(views, subnet);
    if znet != null {
      var i :| 0 <= i < |net.networks| && znet == net.networks[i] && znet.site.subnet == subnet
               && forall k :: 0 <= k < i ==> net.networks[k].site.subnet != subnet;
      assert k == i;
    }
  }
}
