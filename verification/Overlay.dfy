/** The WireGuard overlay of one network: what `Network.generatePeers` writes, as values. */
module Overlay {
  import opened Lists

  type NodeId = nat

  /** A /24, by its index counted from the first /24 of the network's /16. */
  type Subnet = int

  /** An address, by its offset from the first address of the network's /16. */
  type Ip = int

  function Host(subnet: Subnet, host: int): Ip {
    subnet * 256 + host
  }

  predicate InSubnet(ip: Ip, subnet: Subnet) {
    Host(subnet, 0) <= ip < Host(subnet, 256)
  }

  type PrivateKey = nat

  /** Key derivation: only its injectivity matters, so the derived key just wraps the secret. */
  datatype PublicKey = PublicKey(secret: PrivateKey)

  /** A route: the /24 itself, or the routing address `100.64.x.y/32` that stands for it. */
  datatype Prefix = Lan(subnet: Subnet) | Wg(subnet: Subnet)

  datatype Endpoint = Unset | Listen(host: string, port: nat)

  datatype Peer = Peer(subnet: Subnet, publicKey: PublicKey, allowedIps: seq<Prefix>, endpoint: Endpoint)

  /** The part of a node's network workload that never changes once the node was added. */
  datatype Site = Site(nodeId: NodeId, subnet: Subnet, privateKey: PrivateKey, port: nat)

  datatype AccessPoint = AccessPoint(subnet: Subnet, publicKey: PublicKey, nodeId: NodeId)

  /** What peer generation works from. `choice` maps each hidden node to the access node drawn for it. */
  datatype Plan = Plan(
    sites: seq<Site>,
    accessPoints: seq<AccessPoint>,
    endpoints: map<NodeId, string>,
    choice: map<NodeId, NodeId>,
    reserved: seq<Subnet>)

  predicate Visible(endpoints: map<NodeId, string>, id: NodeId) {
    id in endpoints && endpoints[id] != ""
  }

  predicate HasSite(sites: seq<Site>, id: NodeId) {
    exists site :: site in sites && site.nodeId == id
  }

  /** The nodes that need an access node: none in a one-node network, else every node without an endpoint. */
  function HiddenIds(sites: seq<Site>, endpoints: map<NodeId, string>): set<NodeId> {
    if |sites| == 1 then {} else set site | site in sites && !Visible(endpoints, site.nodeId) :: site.nodeId
  }

  function HiddenPoint(site: Site, accessNode: NodeId): AccessPoint {
    AccessPoint(site.subnet, PublicKey(site.privateKey), accessNode)
  }

  function HiddenPoints(sites: seq<Site>, choice: map<NodeId, NodeId>): seq<AccessPoint> {
    if sites == [] then []
    else
      var before := HiddenPoints(Front(sites), choice);
      var site := Last(sites);
      if site.nodeId in choice then before + [HiddenPoint(site, choice[site.nodeId])] else before
  }

  function Points(plan: Plan): seq<AccessPoint> {
    plan.accessPoints + HiddenPoints(plan.sites, plan.choice)
  }

  /** Both routes of every subnet but the two given. */
  function RoutesExcept(reserved: seq<Subnet>, own: Subnet, other: Subnet): seq<Prefix> {
    if reserved == [] then []
    else
      var before := RoutesExcept(Front(reserved), own, other);
      var subnet := Last(reserved);
      if subnet == own || subnet == other then before else before + [Lan(subnet), Wg(subnet)]
  }

  /** `allowed`, then both routes of every point hanging off node `id` that is not there yet. */
  function WithPoints(allowed: seq<Prefix>, points: seq<AccessPoint>, id: NodeId): seq<Prefix> {
    if points == [] then allowed
    else
      var before := WithPoints(allowed, Front(points), id);
      var point := Last(points);
      if point.nodeId != id || Lan(point.subnet) in before then before
      else before + [Lan(point.subnet), Wg(point.subnet)]
  }

  /** What `own` may send through `other`, before the access points of `other` are looked at. */
  function BaseRoutes(plan: Plan, own: Site, other: Site): seq<Prefix> {
    (if own.nodeId in plan.choice then RoutesExcept(plan.reserved, own.subnet, other.subnet) else [])
    + [Lan(other.subnet), Wg(other.subnet)]
  }

  function AllowedIps(plan: Plan, own: Site, other: Site): seq<Prefix> {
    WithPoints(BaseRoutes(plan, own, other), Points(plan), other.nodeId)
  }

  predicate Meshes(plan: Plan, own: Site, other: Site) {
    && own.nodeId != other.nodeId
    && (own.nodeId in plan.choice ==> other.nodeId == plan.choice[own.nodeId])
    && Visible(plan.endpoints, other.nodeId)
  }

  /** IPv6 addresses are bracketed before the port is attached. */
  function ListenAt(address: string, port: nat): Endpoint {
    Listen(if ':' in address then "[" + address + "]" else address, port)
  }

  function MeshPeer(plan: Plan, own: Site, other: Site): Peer
    requires Visible(plan.endpoints, other.nodeId)
  {
    Peer(other.subnet, PublicKey(other.privateKey), AllowedIps(plan, own, other),
         ListenAt(plan.endpoints[other.nodeId], other.port))
  }

  function MeshPeers(plan: Plan, own: Site, others: seq<Site>): seq<Peer> {
    if others == [] then []
    else
      var before := MeshPeers(plan, own, Front(others));
      if Meshes(plan, own, Last(others)) then before + [MeshPeer(plan, own, Last(others))] else before
  }

  function PointPeer(point: AccessPoint): Peer {
    Peer(point.subnet, point.publicKey, [Lan(point.subnet), Wg(point.subnet)], Unset)
  }

  function PointPeers(points: seq<AccessPoint>, id: NodeId): seq<Peer> {
    if points == [] then []
    else
      var before := PointPeers(Front(points), id);
      if Last(points).nodeId == id then before + [PointPeer(Last(points))] else before
  }

  /** The peer table that generation writes for one node. */
  function Table(plan: Plan, own: Site): seq<Peer> {
    MeshPeers(plan, own, plan.sites) + PointPeers(Points(plan), own.nodeId)
  }

  // ----- What the lists above contain

  lemma {:induction false} InHiddenPoints(sites: seq<Site>, choice: map<NodeId, NodeId>, point: AccessPoint)
    ensures point in HiddenPoints(sites, choice) <==>
            exists site :: site in sites && site.nodeId in choice && point == HiddenPoint(site, choice[site.nodeId])
  {
    if sites != [] {
      InHiddenPoints(Front(sites), choice, point);
      assert sites == Front(sites) + [Last(sites)];
    }
  }

  /** Drawing for one more node leaves the points of the others as they are. */
  lemma {:induction false} HiddenPointsFrame(sites: seq<Site>, choice: map<NodeId, NodeId>,
                                             choice': map<NodeId, NodeId>)
    requires forall s :: s in sites ==> (s.nodeId in choice <==> s.nodeId in choice')
    requires forall s :: s in sites && s.nodeId in choice ==> choice[s.nodeId] == choice'[s.nodeId]
    ensures HiddenPoints(sites, choice) == HiddenPoints(sites, choice')
  {
    if sites != [] {
      assert sites == Front(sites) + [Last(sites)];
      HiddenPointsFrame(Front(sites), choice, choice');
    }
  }

  lemma {:induction false} InRoutesExcept(reserved: seq<Subnet>, own: Subnet, other: Subnet, prefix: Prefix)
    ensures prefix in RoutesExcept(reserved, own, other) <==>
            prefix.subnet in reserved && prefix.subnet != own && prefix.subnet != other
  {
    if reserved != [] {
      InRoutesExcept(Front(reserved), own, other, prefix);
      assert reserved == Front(reserved) + [Last(reserved)];
    }
  }

  /** In every generated list a subnet's two routes come together. */
  predicate Paired(allowed: seq<Prefix>) {
    forall p :: p in allowed ==> Lan(p.subnet) in allowed && Wg(p.subnet) in allowed
  }

  lemma {:induction false} InWithPoints(allowed: seq<Prefix>, points: seq<AccessPoint>, id: NodeId, prefix: Prefix)
    requires Paired(allowed)
    ensures Paired(WithPoints(allowed, points, id))
    ensures prefix in WithPoints(allowed, points, id) <==>
            prefix in allowed || exists a :: a in points && a.nodeId == id && a.subnet == prefix.subnet
  {
    if points != [] {
      InWithPoints(allowed, Front(points), id, prefix);
      assert points == Front(points) + [Last(points)];
      var before := WithPoints(allowed, Front(points), id);
      assert Paired(before);
    }
  }

  /** A node reaches through `other` its subnet, whatever hangs off it and, when hidden, all else reserved. */
  lemma InAllowedIps(plan: Plan, own: Site, other: Site, prefix: Prefix)
    ensures prefix in AllowedIps(plan, own, other) <==>
            || prefix.subnet == other.subnet
            || (exists a :: a in Points(plan) && a.nodeId == other.nodeId && a.subnet == prefix.subnet)
            || (own.nodeId in plan.choice && prefix.subnet in plan.reserved && prefix.subnet != own.subnet)
  {
    var base := BaseRoutes(plan, own, other);
    forall p: Prefix ensures p in base <==>
        || p.subnet == other.subnet
        || (own.nodeId in plan.choice && p.subnet in plan.reserved && p.subnet != own.subnet) {
      InRoutesExcept(plan.reserved, own.subnet, other.subnet, p);
    }
    InWithPoints(base, Points(plan), other.nodeId, prefix);
  }

  lemma {:induction false} InMeshPeers(plan: Plan, own: Site, others: seq<Site>, peer: Peer)
    ensures peer in MeshPeers(plan, own, others) <==>
            exists other :: other in others && Meshes(plan, own, other) && peer == MeshPeer(plan, own, other)
  {
    if others != [] {
      InMeshPeers(plan, own, Front(others), peer);
      assert others == Front(others) + [Last(others)];
    }
  }

  lemma {:induction false} InPointPeers(points: seq<AccessPoint>, id: NodeId, peer: Peer)
    ensures peer in PointPeers(points, id) <==>
            exists a :: a in points && a.nodeId == id && peer == PointPeer(a)
  {
    if points != [] {
      InPointPeers(Front(points), id, peer);
      assert points == Front(points) + [Last(points)];
    }
  }

  lemma InTable(plan: Plan, own: Site, peer: Peer)
    ensures peer in Table(plan, own) <==>
            || (exists other :: other in plan.sites && Meshes(plan, own, other) && peer == MeshPeer(plan, own, other))
            || (exists a :: a in Points(plan) && a.nodeId == own.nodeId && peer == PointPeer(a))
  {
    InMeshPeers(plan, own, plan.sites, peer);
    InPointPeers(Points(plan), own.nodeId, peer);
  }

  // ----- Duplicates

  lemma {:induction false} RoutesExceptDistinct(reserved: seq<Subnet>, own: Subnet, other: Subnet)
    requires Distinct(reserved)
    ensures Distinct(RoutesExcept(reserved, own, other))
  {
    if reserved != [] {
      var front, last := Front(reserved), Last(reserved);
      assert forall i :: 0 <= i < |front| ==> front[i] == reserved[i] && front[i] != last;
      RoutesExceptDistinct(front, own, other);
      InRoutesExcept(front, own, other, Lan(last));
      InRoutesExcept(front, own, other, Wg(last));
    }
  }

  lemma {:induction false} WithPointsDistinct(allowed: seq<Prefix>, points: seq<AccessPoint>, id: NodeId)
    requires Distinct(allowed) && Paired(allowed)
    ensures Distinct(WithPoints(allowed, points, id))
  {
    if points != [] {
      WithPointsDistinct(allowed, Front(points), id);
      InWithPoints(allowed, Front(points), id, Lan(Last(points).subnet));
      InWithPoints(allowed, Front(points), id, Wg(Last(points).subnet));
    }
  }

  /** No route is listed twice for a peer, whatever the plan, as long as no subnet is reserved twice. */
  lemma AllowedIpsDistinct(plan: Plan, own: Site, other: Site)
    requires Distinct(plan.reserved)
    ensures Distinct(AllowedIps(plan, own, other))
  {
    var base := BaseRoutes(plan, own, other);
    var rest := RoutesExcept(plan.reserved, own.subnet, other.subnet);
    RoutesExceptDistinct(plan.reserved, own.subnet, other.subnet);
    forall p: Prefix ensures p in rest <==>
        p.subnet in plan.reserved && p.subnet != own.subnet && p.subnet != other.subnet {
      InRoutesExcept(plan.reserved, own.subnet, other.subnet, p);
    }
    assert Lan(other.subnet) !in rest && Wg(other.subnet) !in rest;
    assert Distinct(base);
    WithPointsDistinct(base, Points(plan), other.nodeId);
  }
}
