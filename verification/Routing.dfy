/** The generated peer tables read as routing tables: a packet for a prefix goes to the peer that allows it. */
module Routing {
  import opened Lists
  import opened Overlay

  /** Node ids, keys and subnets identify their owner, and every subnet in use is reserved. */
  ghost predicate WellFormed(plan: Plan) {
    && Distinct(plan.sites)
    && (forall s, t | s in plan.sites && t in plan.sites ::
          s.nodeId == t.nodeId || s.subnet == t.subnet || s.privateKey == t.privateKey ==> s == t)
    && Distinct(plan.accessPoints)
    && (forall a, b | a in plan.accessPoints && b in plan.accessPoints ::
          a.subnet == b.subnet || a.publicKey == b.publicKey ==> a == b)
    && (forall a, s | a in plan.accessPoints && s in plan.sites ::
          a.subnet != s.subnet && a.publicKey != PublicKey(s.privateKey))
    && plan.choice.Keys == HiddenIds(plan.sites, plan.endpoints)
    && Distinct(plan.reserved)
    && (forall s :: s in plan.sites ==> s.subnet in plan.reserved)
    && (forall a :: a in plan.accessPoints ==> a.subnet in plan.reserved)
  }

  /** Every chosen access node is a visible member, and every access point sits on a member that is not hidden. */
  predicate Anchored(plan: Plan) {
    && (forall h :: h in plan.choice ==> HasSite(plan.sites, plan.choice[h]) && Visible(plan.endpoints, plan.choice[h]))
    && (forall a :: a in plan.accessPoints ==> HasSite(plan.sites, a.nodeId) && a.nodeId !in plan.choice)
  }

  /** A prefix somebody in the overlay owns. */
  ghost predicate Destination(plan: Plan, dst: Prefix) {
    || (exists s :: s in plan.sites && s.subnet == dst.subnet)
    || (exists a :: a in plan.accessPoints && a.subnet == dst.subnet)
  }

  // ----- Forwarding

  datatype Stop = AtNode(site: Site) | AtDevice(point: AccessPoint)

  predicate Owns(stop: Stop, dst: Prefix) {
    dst.subnet == (match stop case AtNode(s) => s.subnet case AtDevice(a) => a.subnet)
  }

  function KeyOf(stop: Stop): PublicKey {
    match stop
    case AtNode(s) => PublicKey(s.privateKey)
    case AtDevice(a) => a.publicKey
  }

  predicate Member(plan: Plan, stop: Stop) {
    match stop
    case AtNode(s) => s in plan.sites
    case AtDevice(a) => a in plan.accessPoints
  }

  /** A tunnel dialled there ends at `site`: at the grid's address for it, in brackets exactly if there is a colon
      in it, and at the site's own port. */
  predicate LeadsTo(endpoints: map<NodeId, string>, endpoint: Endpoint, site: Site) {
    && site.nodeId in endpoints && endpoint.Listen? && endpoint.port == site.port
    && var address := endpoints[site.nodeId];
       address != "" && endpoint.host == if ':' in address then "[" + address + "]" else address
  }

  /** `stop` opens the tunnel to `own` itself: a user's device is configured with the endpoint of its node. */
  ghost predicate Dials(plan: Plan, stop: Stop, own: Site) {
    stop.AtNode? ==> exists peer :: peer in Table(plan, stop.site) && peer.publicKey == PublicKey(own.privateKey)
                                    && LeadsTo(plan.endpoints, peer.endpoint, own)
  }

  predicate DialledAs(plan: Plan, endpoint: Endpoint, stop: Stop) {
    stop.AtNode? && LeadsTo(plan.endpoints, endpoint, stop.site)
  }

  /** One forwarding step: some peer of `own` allows `dst`, and one of the two sides dials the other where it
      listens. */
  ghost predicate Hop(plan: Plan, own: Site, dst: Prefix, next: Stop) {
    && Member(plan, next)
    && exists peer :: peer in Table(plan, own) && dst in peer.allowedIps && peer.publicKey == KeyOf(next)
                      && (DialledAs(plan, peer.endpoint, next) || Dials(plan, next, own))
  }

  /** A packet's way to the owner of `dst`, never passing the same stop twice. */
  ghost predicate Route(plan: Plan, path: seq<Stop>, dst: Prefix) {
    && path != []
    && Owns(Last(path), dst)
    && Distinct(path)
    && (forall i :: 0 <= i < |path| - 1 ==>
          path[i].AtNode? && !Owns(path[i], dst) && Hop(plan, path[i].site, dst, path[i + 1]))
  }

  ghost predicate Reaches(plan: Plan, from: Site, dst: Prefix, hops: nat) {
    exists path :: Route(plan, path, dst) && path[0] == AtNode(from) && |path| <= hops + 1
  }

  ghost predicate Connected(plan: Plan, hops: nat) {
    forall from, dst :: from in plan.sites && Destination(plan, dst) ==> Reaches(plan, from, dst, hops)
  }

  // ----- Who is behind a peer

  /** A point with a node's subnet or key stands for that node, which is then hidden. */
  lemma PointOfSite(plan: Plan, a: AccessPoint, s: Site)
    requires WellFormed(plan) && a in Points(plan) && s in plan.sites
    requires a.subnet == s.subnet || a.publicKey == PublicKey(s.privateKey)
    ensures s.nodeId in plan.choice && a == HiddenPoint(s, plan.choice[s.nodeId])
  {
    InHiddenPoints(plan.sites, plan.choice, a);
  }

  lemma PointIsUnique(plan: Plan, a: AccessPoint, b: AccessPoint)
    requires WellFormed(plan) && a in Points(plan) && b in Points(plan)
    requires a.subnet == b.subnet || a.publicKey == b.publicKey
    ensures a == b
  {
    InHiddenPoints(plan.sites, plan.choice, a);
    InHiddenPoints(plan.sites, plan.choice, b);
  }

  lemma HiddenPointListed(plan: Plan, s: Site)
    requires s in plan.sites && s.nodeId in plan.choice
    ensures HiddenPoint(s, plan.choice[s.nodeId]) in Points(plan)
  {
    InHiddenPoints(plan.sites, plan.choice, HiddenPoint(s, plan.choice[s.nodeId]));
  }

  /** A node with an endpoint is never among the hidden ones, and one without is, once there are two nodes. */
  lemma HiddenMeansNoEndpoint(plan: Plan, s: Site)
    requires WellFormed(plan) && s in plan.sites
    ensures s.nodeId in plan.choice <==> |plan.sites| != 1 && !Visible(plan.endpoints, s.nodeId)
  {
  }

  lemma OnlySite(plan: Plan, s: Site, t: Site)
    requires s in plan.sites && t in plan.sites && s != t
    ensures |plan.sites| != 1
  {
  }

  predicate KeysDistinct(peers: seq<Peer>) {
    forall i, j :: 0 <= i < j < |peers| ==> peers[i].publicKey != peers[j].publicKey
  }

  lemma {:induction false} MeshKeysDistinct(plan: Plan, own: Site, others: seq<Site>)
    requires Distinct(others)
    requires forall s, t :: s in others && t in others && s.privateKey == t.privateKey ==> s == t
    ensures KeysDistinct(MeshPeers(plan, own, others))
  {
    if others != [] {
      var front, last := Front(others), Last(others);
      assert others == front + [last];
      assert forall i :: 0 <= i < |front| ==> front[i] == others[i];
      MeshKeysDistinct(plan, own, front);
      var before := MeshPeers(plan, own, front);
      forall i | 0 <= i < |before| ensures before[i].publicKey != PublicKey(last.privateKey) {
        InMeshPeers(plan, own, front, before[i]);
        var other :| other in front && before[i].publicKey == PublicKey(other.privateKey);
        assert last != other;
      }
    }
  }

  lemma {:induction false} PointKeysDistinct(points: seq<AccessPoint>, id: NodeId)
    requires Distinct(points)
    requires forall a, b :: a in points && b in points && a.publicKey == b.publicKey ==> a == b
    ensures KeysDistinct(PointPeers(points, id))
  {
    if points != [] {
      var front, last := Front(points), Last(points);
      assert points == front + [last];
      assert forall i :: 0 <= i < |front| ==> front[i] == points[i];
      PointKeysDistinct(front, id);
      var before := PointPeers(front, id);
      forall i | 0 <= i < |before| ensures before[i].publicKey != last.publicKey {
        InPointPeers(front, id, before[i]);
        var a :| a in front && before[i].publicKey == a.publicKey;
        assert last != a;
      }
    }
  }

  lemma {:induction false} HiddenPointsDistinct(sites: seq<Site>, choice: map<NodeId, NodeId>)
    requires Distinct(sites)
    requires forall s, t :: s in sites && t in sites && s.privateKey == t.privateKey ==> s == t
    ensures Distinct(HiddenPoints(sites, choice))
  {
    if sites != [] {
      var front, last := Front(sites), Last(sites);
      assert sites == front + [last];
      assert forall i :: 0 <= i < |front| ==> front[i] == sites[i];
      HiddenPointsDistinct(front, choice);
      if last.nodeId in choice {
        InHiddenPoints(front, choice, HiddenPoint(last, choice[last.nodeId]));
        assert HiddenPoint(last, choice[last.nodeId]) !in HiddenPoints(front, choice);
      }
    }
  }

  lemma PointsDistinct(plan: Plan)
    requires WellFormed(plan)
    ensures Distinct(Points(plan))
  {
    HiddenPointsDistinct(plan.sites, plan.choice);
    var hidden := HiddenPoints(plan.sites, plan.choice);
    forall i, j | 0 <= i < |plan.accessPoints| && 0 <= j < |hidden| ensures plan.accessPoints[i] != hidden[j] {
      InHiddenPoints(plan.sites, plan.choice, hidden[j]);
    }
  }

  lemma MeshAndPointKeysDiffer(plan: Plan, own: Site, p: Peer, q: Peer)
    requires WellFormed(plan)
    requires p in MeshPeers(plan, own, plan.sites) && q in PointPeers(Points(plan), own.nodeId)
    ensures p.publicKey != q.publicKey
  {
    InMeshPeers(plan, own, plan.sites, p);
    InPointPeers(Points(plan), own.nodeId, q);
    var other :| other in plan.sites && Meshes(plan, own, other) && p == MeshPeer(plan, own, other);
    var a :| a in Points(plan) && q == PointPeer(a);
    assert PointPeer(a).publicKey == a.publicKey;
    if a.publicKey == PublicKey(other.privateKey) {
      PointOfSite(plan, a, other);
      HiddenMeansNoEndpoint(plan, other);
      assert false;
    }
  }

  /** A peer table names each key once, as WireGuard demands of an interface. */
  lemma TableKeysDistinct(plan: Plan, own: Site)
    requires WellFormed(plan)
    ensures KeysDistinct(Table(plan, own))
  {
    var mesh, points := MeshPeers(plan, own, plan.sites), PointPeers(Points(plan), own.nodeId);
    assert KeysDistinct(mesh) by { MeshKeysDistinct(plan, own, plan.sites); }
    assert KeysDistinct(points) by {
      PointsDistinct(plan);
      forall a, b | a in Points(plan) && b in Points(plan) && a.publicKey == b.publicKey ensures a == b {
        PointIsUnique(plan, a, b);
      }
      PointKeysDistinct(Points(plan), own.nodeId);
    }
    forall i, j | 0 <= i < |mesh| && 0 <= j < |points| ensures mesh[i].publicKey != points[j].publicKey {
      MeshAndPointKeysDiffer(plan, own, mesh[i], points[j]);
    }
  }
}
